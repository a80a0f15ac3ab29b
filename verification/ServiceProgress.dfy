/**
 The service never gets stuck: whatever has happened so far, as long as there is a server, the threads
 can go on in such a way that every client gets the answers to all its requests and comes to its end.

 While a client has not finished, some thread has a step that brings the service nearer to its end.
 How far away the end is, is measured in two parts: `Work`, what the protocol has before it, and
 `Waits`, the steps inside the ring and the table.
 */
module ServiceProgress {
  import opened Wrappers
  import opened KvSystem
  import opened KvEndToEnd
  import R = Ring
  import RL = RingLinearizable
  import RP = RingProgress
  import KV = KvStore
  import KL = KvLinearizable
  import KP = KvProgress
  import W = Window
  import WP = WindowProtocol

  function Sum(xs: seq<nat>): nat {
    if xs == [] then 0 else xs[0] + Sum(xs[1..])
  }

  lemma {:induction false} SumUpdate(xs: seq<nat>, i: nat, v: nat)
    requires i < |xs|
    ensures Sum(xs[i := v]) + xs[i] == Sum(xs) + v
  {
    if i > 0 {
      SumUpdate(xs[1..], i - 1, v);
      assert xs[i := v][1..] == xs[1..][i - 1 := v];
    } else {
      assert xs[i := v][1..] == xs[1..];
    }
  }

  /** How many of `all` there are still to come after `n`. */
  function Missing(n: nat, all: nat): nat {
    if n < all then all - n else 0
  }

  // ---------------------------------------------------------------------------
  // The work of the protocol

  predicate WindowOpen(cl: W.Client, win: nat) {
    cl.pc.Submitting? && cl.lastSubmitted - cl.lastCompleted < win && cl.lastSubmitted < |cl.reqs|
  }

  function ClientWork(cl: W.Client, win: nat): nat {
    Missing(cl.lastSubmitted, |cl.reqs|) * 20 + Missing(cl.lastCompleted, |cl.reqs|) * 10 +
    match cl.pc
    case Submitting => if WindowOpen(cl, win) then 0 else 3
    case Checking => 2
    case Clearing => 1
    case Copying => 0
    case Finished => 0
  }

  function ServerWork(sv: W.Server): nat {
    match sv
    case Waiting => 0
    case Got(_) => 4
    case Copied(_) => 3
    case Executed(_, _) => 2
    case Answered(_, _) => 1
  }

  ghost function ClientWorks(w: W.System): (ns: seq<nat>)
    ensures |ns| == |w.clients| && forall c :: 0 <= c < |ns| ==> ns[c] == ClientWork(w.clients[c], w.win)
  {
    seq(|w.clients|, c requires 0 <= c < |w.clients| => ClientWork(w.clients[c], w.win))
  }

  ghost function ServerWorks(w: W.System): (ns: seq<nat>)
    ensures |ns| == |w.servers| && forall x :: 0 <= x < |ns| ==> ns[x] == ServerWork(w.servers[x])
  {
    seq(|w.servers|, x requires 0 <= x < |w.servers| => ServerWork(w.servers[x]))
  }

  /** A queued message has to pass a server. */
  ghost function ProtocolWork(w: W.System): nat {
    Sum(ClientWorks(w)) + Sum(ServerWorks(w)) + |w.queue| * 7
  }

  /** Every step of a server is work done. */
  lemma ServerWorked(w: W.System, x: nat, w': W.System)
    requires x < |w.servers| && W.ServerMove(w, x) == Some(w')
    ensures ProtocolWork(w') < ProtocolWork(w)
  {
    ServerMoved(w, x, w');
    hide W.ServerMove, ServerWork, ClientWork;
    SumUpdate(ServerWorks(w), x, ServerWork(w'.servers[x]));
    assert ServerWorks(w') == ServerWorks(w)[x := ServerWork(w'.servers[x])];
    assert ClientWorks(w') == ClientWorks(w);
  }

  lemma ServerMoved(w: W.System, x: nat, w': W.System)
    requires x < |w.servers| && W.ServerMove(w, x) == Some(w')
    ensures w'.clients == w.clients && w'.win == w.win
    ensures |w'.servers| == |w.servers| && w'.servers == w.servers[x := w'.servers[x]]
    ensures ServerWork(w'.servers[x]) + 7 * |w'.queue| < ServerWork(w.servers[x]) + 7 * |w.queue|
  {
    hide W.Output, W.Store, W.Slot, ServerWork;
    ItsServer(w, x, w');
    OneStageOn(w.servers[x], w'.servers[x]);
  }

  /** The stages that a server goes through. */
  predicate OneStage(sv: W.Server, sv': W.Server) {
    match sv
    case Waiting => sv'.Got?
    case Got(_) => sv'.Copied?
    case Copied(_) => sv'.Executed?
    case Executed(_, _) => sv'.Answered?
    case Answered(_, _) => sv'.Waiting?
  }

  lemma ItsServer(w: W.System, x: nat, w': W.System)
    requires x < |w.servers| && W.ServerMove(w, x) == Some(w')
    ensures w'.clients == w.clients && w'.win == w.win
    ensures |w'.servers| == |w.servers| && w'.servers == w.servers[x := w'.servers[x]]
    ensures OneStage(w.servers[x], w'.servers[x])
    ensures |w'.queue| == if w.servers[x].Waiting? then |w.queue| - 1 else |w.queue|
  {
    hide W.Output, W.Store, W.Slot;
  }

  lemma OneStageOn(sv: W.Server, sv': W.Server)
    requires OneStage(sv, sv')
    ensures ServerWork(sv') < ServerWork(sv) + if sv.Waiting? then 7 else 0
  {
  }

  /** So is handing in a request. */
  lemma SubmitWorked(w: W.System, c: nat, w': W.System)
    requires c < |w.clients| && WindowOpen(w.clients[c], w.win) && W.ClientMove(w, c) == Some(w')
    ensures ProtocolWork(w') < ProtocolWork(w)
  {
    ClientWorked(w, c, w');
  }

  lemma ClientWorked(w: W.System, c: nat, w': W.System)
    requires c < |w.clients| && w'.win == w.win && w'.servers == w.servers
    requires |w'.clients| == |w.clients| && w'.clients == w.clients[c := w'.clients[c]]
    ensures ProtocolWork(w') + ClientWork(w.clients[c], w.win) + 7 * |w.queue| ==
            ProtocolWork(w) + ClientWork(w'.clients[c], w.win) + 7 * |w'.queue|
  {
    SumUpdate(ClientWorks(w), c, ClientWork(w'.clients[c], w.win));
    assert ClientWorks(w') == ClientWorks(w)[c := ClientWork(w'.clients[c], w.win)];
    assert ServerWorks(w') == ServerWorks(w);
  }

  /** And so is any other step of a client, unless it looks in vain for an answer. */
  lemma LocalWorked(w: W.System, c: nat, w': W.System)
    requires c < |w.clients| && WP.WindowOk(w, c) && W.ClientMove(w, c) == Some(w') && !WindowOpen(w.clients[c], w.win)
    requires var cl := w.clients[c];
             cl.pc.Checking? && !W.Slot(w, c, cl.nxtComp).ready ==> cl.lastSubmitted == cl.lastCompleted
    ensures ProtocolWork(w') < ProtocolWork(w)
  {
    ClientWorked(w, c, w');
  }

  /** If no message is queued or served, all requests in flight have their answers on the board. */
  lemma AnswerIsOnBoard(w: W.System, c: nat)
    requires WP.Inv(w) && c < |w.clients| && w.queue == []
    requires forall x :: 0 <= x < |w.servers| ==> w.servers[x].Waiting?
    requires w.clients[c].pc.Checking?
    ensures var cl := w.clients[c];
            !W.Slot(w, c, cl.nxtComp).ready ==> cl.lastSubmitted == cl.lastCompleted
  {
    var cl := w.clients[c];
    assert WP.WindowOk(w, c);
    if cl.lastCompleted < cl.lastSubmitted {
      assert WP.InFlight(w, c, cl.lastCompleted) && WP.Placed(w, c, cl.lastCompleted);
    }
  }

  // ---------------------------------------------------------------------------
  // The steps inside the ring and the table

  /** What the program counter of a client says about its next call of ring_submit. */
  function ClientWait(s: System, c: nat): nat
    requires c < |s.clients| <= |s.ring.threads|
  {
    if !s.ring.threads[c].Outside? then RP.Left(s.ring.threads[c])
    else if s.clients[c].pc.Submitting? && MaySubmit(s, c) then 8
    else 0
  }

  function ServerWait(s: System, x: nat): nat
    requires x < |s.servers| <= |s.table.threads| && |s.clients| + |s.servers| <= |s.ring.threads|
  {
    if !s.ring.threads[|s.clients| + x].Outside? then RP.Left(s.ring.threads[|s.clients| + x])
    else if !s.table.threads[x].Outside? then KP.Left(s.table.threads[x], |s.table.heap|)
    else if s.servers[x].Waiting? then 8
    else if s.servers[x].Copied? then 8 + 2 * |s.table.heap|
    else 0
  }

  ghost function ClientWaits(s: System): (ns: seq<nat>)
    requires Shape(s)
    ensures |ns| == |s.clients| && forall c :: 0 <= c < |ns| ==> ns[c] == ClientWait(s, c)
  {
    seq(|s.clients|, c requires 0 <= c < |s.clients| => ClientWait(s, c))
  }

  ghost function ServerWaits(s: System): (ns: seq<nat>)
    requires Shape(s)
    ensures |ns| == |s.servers| && forall x :: 0 <= x < |ns| ==> ns[x] == ServerWait(s, x)
  {
    seq(|s.servers|, x requires 0 <= x < |s.servers| => ServerWait(s, x))
  }

  ghost function Waits(s: System): nat
    requires Shape(s)
  {
    Sum(ClientWaits(s)) + Sum(ServerWaits(s))
  }

  /** The calls of ring_submit that have not returned. */
  ghost function Uncounted(s: System): (ns: seq<nat>)
    ensures |ns| == |s.clients|
    ensures forall c :: 0 <= c < |ns| ==> ns[c] == Missing(s.clients[c].lastSubmitted, |s.clients[c].reqs|)
  {
    seq(|s.clients|, c requires 0 <= c < |s.clients| =>
      Missing(s.clients[c].lastSubmitted, |s.clients[c].reqs|))
  }

  ghost function Work(s: System, w: W.System): nat {
    ProtocolWork(w) + Sum(Uncounted(s))
  }

  /** The service has come nearer to its end. */
  ghost predicate Nearer(s: System, w: W.System, s': System, w': W.System)
    requires Shape(s) && Shape(s')
  {
    Work(s', w') < Work(s, w) || (Work(s', w') == Work(s, w) && Waits(s') < Waits(s))
  }

  /** The service is in order, and so are its mutexes. */
  ghost predicate Good(s: System, w: W.System) {
    Related(s, w) && RP.HoldersOk(s.ring) && KP.LocksOk(s.table)
  }

  // ---------------------------------------------------------------------------
  // A step of a client

  /** Nobody else is touched. */
  lemma ClientFrame(s: System, c: nat, s': System)
    requires Shape(s) && c < |s.clients| && ClientMove(s, c) == Some(s')
    ensures |s'.clients| == |s.clients| && s'.clients == s.clients[c := s'.clients[c]]
    ensures s'.servers == s.servers && s'.table == s.table && s'.win == s.win
    ensures |s'.ring.threads| == |s.ring.threads| && s'.ring.threads == s.ring.threads[c := s'.ring.threads[c]]
    ensures s'.clients[c].reqs == s.clients[c].reqs
    ensures Shape(s')
  {
    assert Step(s, ClientStep(c)) == Some(s');
  }

  lemma ClientNearer(s: System, w: W.System, c: nat, s': System, w': W.System)
    requires Shape(s) && Shape(s') && c < |s.clients| == |s'.clients| && s'.clients == s.clients[c := s'.clients[c]]
    requires s'.servers == s.servers && s'.table == s.table && s'.win == s.win
    requires s'.ring.threads == s.ring.threads[c := s'.ring.threads[c]]
    requires s'.clients[c].reqs == s.clients[c].reqs
    requires var before, after := Missing(s.clients[c].lastSubmitted, |s.clients[c].reqs|),
                                  Missing(s'.clients[c].lastSubmitted, |s.clients[c].reqs|);
             || (ProtocolWork(w') < ProtocolWork(w) && after <= before)
             || (w' == w && after < before)
             || (w' == w && after == before && ClientWait(s', c) < ClientWait(s, c))
    ensures Nearer(s, w, s', w')
  {
    hide KV.Shape, R.Shape;
    SumUpdate(Uncounted(s), c, Uncounted(s')[c]);
    assert Uncounted(s') == Uncounted(s)[c := Uncounted(s')[c]];
    SumUpdate(ClientWaits(s), c, ClientWait(s', c));
    assert ClientWaits(s') == ClientWaits(s)[c := ClientWait(s', c)];
    assert ServerWaits(s') == ServerWaits(s);
  }

  /** The step of the client is not in vain. */
  ghost predicate ClientCan(s: System, w: W.System, c: nat)
    requires Shape(s) && c < |s.clients| && c < |w.clients|
  {
    if s.ring.threads[c].Outside? then
      var wc := w.clients[c];
      && !wc.pc.Finished?
      && (wc.pc.Checking? && !W.Slot(w, c, wc.nxtComp).ready ==> wc.lastSubmitted == wc.lastCompleted)
    else RP.CanGo(s.ring, c)
  }

  lemma RingReturns(s: R.State, t: nat)
    requires R.Shape(s) && R.Step(s, R.Advance(t)).Some?
    ensures R.Step(s, R.Advance(t)).value.1 != [] ==> t < |s.threads| && RL.StatusOf(s.threads[t]).Applied?
  {
  }

  /** Inside ring_submit. */
  lemma ClientInside(s: System, w: W.System, c: nat, s': System, chs: seq<W.Choice>, w': W.System)
    requires Related(s, w) && c < |s.clients| && ClientMove(s, c) == Some(s') && Follows(w, chs, w')
    requires !s.ring.threads[c].Outside? && RP.CanGo(s.ring, c)
    requires chs != [] ==> chs == [W.ClientStep(c)] && QueueOf(s.ring).status[c].Pending?
    ensures Shape(s') && Nearer(s, w, s', w')
  {
    ClientFrame(s, c, s');
    RP.OneStep(s.ring, c);
    RingReturns(s.ring, c);
    assert ClientRel(s, QueueOf(s.ring), w, c) && WP.WindowOk(w, c);
    hide R.Step, RL.Inv, KL.Inv, WP.Inv, RP.Finishes;
    if chs != [] {
      SubmitWorked(w, c, w');
    }
    ClientNearer(s, w, c, s', w');
  }

  /** Outside of it. */
  lemma ClientElsewhere(s: System, w: W.System, c: nat, s': System, chs: seq<W.Choice>, w': W.System)
    requires Related(s, w) && c < |s.clients| && ClientMove(s, c) == Some(s') && Follows(w, chs, w')
    requires s.ring.threads[c].Outside? && c < |w.clients| && ClientCan(s, w, c)
    requires chs != [] ==> chs == [W.ClientStep(c)]
    requires chs == [] <==> s.clients[c].pc.Submitting? && MaySubmit(s, c)
    ensures Shape(s') && Nearer(s, w, s', w')
  {
    ClientFrame(s, c, s');
    if chs != [] {
      OutsideIsIdle(s);
      assert ClientRel(s, QueueOf(s.ring), w, c) && WP.WindowOk(w, c);
      LocalWorked(w, c, w');
      StillSubmitted(s, c, s');
    } else {
      HandsIn(s, c, s');
    }
    hide RL.Inv, KL.Inv, WP.Inv, Rel, ClientMove, Follows;
    ClientNearer(s, w, c, s', w');
  }

  lemma StillSubmitted(s: System, c: nat, s': System)
    requires Shape(s) && c < |s.clients| == |s'.clients| && ClientMove(s, c) == Some(s')
    requires s.ring.threads[c].Outside?
    ensures s'.clients[c].lastSubmitted == s.clients[c].lastSubmitted
  {
  }

  lemma HandsIn(s: System, c: nat, s': System)
    requires Shape(s) && c < |s.clients| <= |s'.ring.threads| && ClientMove(s, c) == Some(s')
    requires s.ring.threads[c].Outside? && s.clients[c].pc.Submitting? && MaySubmit(s, c)
    ensures s'.clients == s.clients && ClientWait(s', c) < ClientWait(s, c)
  {
  }

  // ---------------------------------------------------------------------------
  // A step of a server

  lemma ServerFrame(s: System, x: nat, s': System)
    requires Shape(s) && x < |s.servers| && ServerMove(s, x) == Some(s')
    ensures s'.clients == s.clients && s'.win == s.win
    ensures |s'.servers| == |s.servers| && s'.servers == s.servers[x := s'.servers[x]]
    ensures var t := |s.clients| + x;
            |s'.ring.threads| == |s.ring.threads| && s'.ring.threads == s.ring.threads[t := s'.ring.threads[t]]
    ensures |s'.table.threads| == |s.table.threads| && s'.table.threads == s.table.threads[x := s'.table.threads[x]]
    ensures Shape(s')
  {
    assert Step(s, ServerStep(x)) == Some(s');
    hide R.Step, KV.Step, ServerMove;
    OnlyThose(s, ServerStep(x));
    RingFrame(s.ring, RingChoice(s, ServerStep(x)));
    TableFrame(s.table, TableChoice(s, ServerStep(x)));
    ServerKeeps(s, x, s');
  }

  lemma ServerKeeps(s: System, x: nat, s': System)
    requires Shape(s) && x < |s.servers| && ServerMove(s, x) == Some(s')
    ensures s'.clients == s.clients && s'.win == s.win
    ensures |s'.servers| == |s.servers| && s'.servers == s.servers[x := s'.servers[x]]
  {
    hide R.Step, KV.Step;
  }

  lemma RingFrame(s: R.State, c: R.Choice)
    requires R.Shape(s)
    ensures var r := R.Step(s, c);
            r.Some? ==> c.tid < |s.threads| == |r.value.0.threads| &&
                        r.value.0.threads == s.threads[c.tid := r.value.0.threads[c.tid]]
  {
  }

  lemma TableFrame(s: KV.Table, c: KV.Choice)
    requires KV.Shape(s)
    ensures var r := KV.Step(s, c);
            r.Some? ==> c.tid < |s.threads| == |r.value.0.threads| &&
                        r.value.0.threads == s.threads[c.tid := r.value.0.threads[c.tid]]
  {
  }

  lemma ServerNearer(s: System, w: W.System, x: nat, s': System, w': W.System)
    requires Shape(s) && Shape(s') && x < |s.servers| == |s'.servers| && s'.clients == s.clients && s'.win == s.win
    requires s'.servers == s.servers[x := s'.servers[x]]
    requires var t := |s.clients| + x; s'.ring.threads == s.ring.threads[t := s'.ring.threads[t]]
    requires s'.table.threads == s.table.threads[x := s'.table.threads[x]]
    requires || ProtocolWork(w') < ProtocolWork(w)
             || (w' == w && |s'.table.heap| == |s.table.heap| && ServerWait(s', x) < ServerWait(s, x))
    ensures Nearer(s, w, s', w')
  {
    hide KV.Shape, R.Shape;
    assert Uncounted(s') == Uncounted(s);
    if ProtocolWork(w') >= ProtocolWork(w) {
      SumUpdate(ServerWaits(s), x, ServerWait(s', x));
      assert ServerWaits(s') == ServerWaits(s)[x := ServerWait(s', x)];
      assert ClientWaits(s') == ClientWaits(s);
    }
  }

  /** The server does not have to wait. */
  ghost predicate ServerCan(s: System, x: nat)
    requires Shape(s) && x < |s.servers|
  {
    if !s.ring.threads[|s.clients| + x].Outside? then RP.CanGo(s.ring, |s.clients| + x)
    else s.table.threads[x].Outside? || KP.CanGo(s.table, x)
  }

  /** Inside ring_get. */
  lemma ServerInside(s: System, w: W.System, x: nat, s': System, chs: seq<W.Choice>, w': W.System)
    requires Related(s, w) && x < |s.servers| && ServerMove(s, x) == Some(s') && Follows(w, chs, w')
    requires var t := |s.clients| + x; !s.ring.threads[t].Outside? && RP.CanGo(s.ring, t)
    requires chs != [] ==> chs == [W.ServerStep(x)]
    ensures Shape(s') && Nearer(s, w, s', w')
  {
    ServerFrame(s, x, s');
    if chs != [] {
      assert x < |w.servers|;
      ServerWorked(w, x, w');
    } else {
      OneWaitLess(s, w, x, s');
    }
    hide RL.Inv, KL.Inv, WP.Inv, Rel, ServerMove;
    ServerNearer(s, w, x, s', w');
  }

  lemma OneWaitLess(s: System, w: W.System, x: nat, s': System)
    requires Related(s, w) && x < |s.servers| && ServerMove(s, x) == Some(s') && Shape(s')
    requires s'.clients == s.clients && |s'.servers| == |s.servers|
    requires var t := |s.clients| + x; !s.ring.threads[t].Outside? && RP.CanGo(s.ring, t)
    ensures s'.table == s.table && ServerWait(s', x) < ServerWait(s, x)
  {
    OutsideIsIdle(s);
    assert ServerRel(s, QueueOf(s.ring), StoreOf(s.table), w, x);
    RP.OneStep(s.ring, |s.clients| + x);
    RingReturns(s.ring, |s.clients| + x);
    hide R.Step, RL.Inv, KL.Inv, WP.Inv, Rel, QueueOf, StoreOf;
  }

  /** Inside put or get. */
  lemma ServerInTable(s: System, w: W.System, x: nat, s': System, chs: seq<W.Choice>, w': W.System)
    requires Related(s, w) && x < |s.servers| && ServerMove(s, x) == Some(s') && Follows(w, chs, w')
    requires s.ring.threads[|s.clients| + x].Outside? && !s.table.threads[x].Outside? && KP.CanGo(s.table, x)
    requires chs != [] ==> chs == [W.ServerStep(x)]
    requires KL.Inv(s'.table)
    requires chs == [] && !s'.table.threads[x].Outside? ==> StoreOf(s'.table) == StoreOf(s.table)
    ensures Shape(s') && Nearer(s, w, s', w')
  {
    ServerFrame(s, x, s');
    OutsideIsIdle(s);
    assert ServerRel(s, QueueOf(s.ring), StoreOf(s.table), w, x);
    if chs != [] {
      ServerWorked(w, x, w');
    } else {
      KP.Nearer(s.table, x);
      Published(s.table, x);
      hide KV.Step, RL.Inv, KL.Inv, WP.Inv;
    }
    ServerNearer(s, w, x, s', w');
  }

  /** Publishing a node shows in the store. */
  lemma Published(s: KV.Table, x: nat)
    requires KL.Inv(s) && x < |s.threads| && KV.Step(s, KV.Advance(x)).Some?
    requires KL.Inv(KV.Step(s, KV.Advance(x)).value.0)
    ensures s.threads[x].PutPublish? ==>
              !KV.Step(s, KV.Advance(x)).value.0.threads[x].Outside? &&
              StoreOf(KV.Step(s, KV.Advance(x)).value.0) != StoreOf(s)
  {
    assert s.threads[x].PutPublish? ==> StoreOf(KV.Step(s, KV.Advance(x)).value.0).status[x].Applied?;
  }

  /** Outside of both. */
  lemma ServerElsewhere(s: System, w: W.System, x: nat, s': System, chs: seq<W.Choice>, w': W.System)
    requires Related(s, w) && x < |s.servers| && ServerMove(s, x) == Some(s') && Follows(w, chs, w')
    requires s.ring.threads[|s.clients| + x].Outside? && s.table.threads[x].Outside?
    requires chs != [] ==> chs == [W.ServerStep(x)]
    requires chs == [] <==> s.servers[x].Waiting? || s.servers[x].Copied?
    ensures Shape(s') && Nearer(s, w, s', w')
  {
    ServerFrame(s, x, s');
    if chs != [] {
      assert x < |w.servers|;
      ServerWorked(w, x, w');
    } else {
      Called(s, x, s');
    }
    hide RL.Inv, KL.Inv, WP.Inv;
    ServerNearer(s, w, x, s', w');
  }

  lemma Called(s: System, x: nat, s': System)
    requires Shape(s) && Shape(s') && |s'.servers| == |s.servers| && s'.clients == s.clients
    requires x < |s.servers| && ServerMove(s, x) == Some(s')
    requires s.ring.threads[|s.clients| + x].Outside? && s.table.threads[x].Outside?
    requires s.servers[x].Waiting? || s.servers[x].Copied?
    ensures |s'.table.heap| == |s.table.heap| && ServerWait(s', x) < ServerWait(s, x)
  {
  }

  // ---------------------------------------------------------------------------
  // Somebody always has a step to do

  lemma MutexesStay(s: System, ch: Choice)
    requires Shape(s) && RP.HoldersOk(s.ring) && KP.LocksOk(s.table) && Step(s, ch).Some?
    ensures RP.HoldersOk(Step(s, ch).value.ring) && KP.LocksOk(Step(s, ch).value.table)
  {
    var s' := Step(s, ch).value;
    var rc, kc := RingChoice(s, ch), TableChoice(s, ch);
    if R.Step(s.ring, rc).Some? {
      RP.HoldersStep(s.ring, rc);
    }
    if KV.Step(s.table, kc).Some? {
      KP.LocksStep(s.table, kc);
    }
    OnlyThose(s, ch);
  }

  /** The step in the ring that a choice may stand for. */
  ghost function RingChoice(s: System, ch: Choice): R.Choice {
    match ch
    case ClientStep(c) =>
      if c < |s.clients| && c < |s.ring.threads| && s.ring.threads[c].Outside?
         && s.clients[c].lastSubmitted < |s.clients[c].reqs|
      then R.Start(c, R.Submit(NextDescriptor(s, c)))
      else R.Advance(c)
    case ServerStep(x) =>
      var t := |s.clients| + x;
      if t < |s.ring.threads| && s.ring.threads[t].Outside? then R.Start(t, R.Take) else R.Advance(t)
  }

  ghost function TableChoice(s: System, ch: Choice): KV.Choice {
    match ch
    case ClientStep(c) => KV.Advance(0)
    case ServerStep(x) =>
      if x < |s.servers| && x < |s.table.threads| && s.table.threads[x].Outside? && s.servers[x].Copied?
      then KV.Start(x, OpOf(s.servers[x].bd))
      else KV.Advance(x)
  }

  lemma OnlyThose(s: System, ch: Choice)
    requires Shape(s) && Step(s, ch).Some?
    ensures var s', rc := Step(s, ch).value, RingChoice(s, ch);
            s'.ring == s.ring || (R.Step(s.ring, rc).Some? && s'.ring == R.Step(s.ring, rc).value.0)
    ensures var s', kc := Step(s, ch).value, TableChoice(s, ch);
            s'.table == s.table || (KV.Step(s.table, kc).Some? && s'.table == KV.Step(s.table, kc).value.0)
  {
    hide R.Step, KV.Step;
  }

  /** `ch` is a step, and it brings the service nearer to its end. */
  ghost predicate Useful(s: System, w: W.System, ch: Choice, chs: seq<W.Choice>, w': W.System)
    requires Shape(s)
  {
    && Step(s, ch).Some? && Follows(w, chs, w')
    && Good(Step(s, ch).value, w') && Nearer(s, w, Step(s, ch).value, w')
  }

  lemma ProtocolGoes(w: W.System, chs: seq<W.Choice>, w': W.System)
    requires WP.Inv(w) && Follows(w, chs, w')
    ensures WP.Inv(w')
  {
    hide WP.Inv, W.ClientMove, W.ServerMove;
    if chs != [] {
      match chs[0] {
        case ClientStep(c) => WP.ClientInv(w, c, w');
        case ServerStep(x) => WP.ServerInv(w, x, w');
      }
    }
  }

  lemma ClientMoves(s: System, w: W.System, c: nat)
    requires Related(s, w) && c < |s.clients| && c < |w.clients| && ClientCan(s, w, c)
    ensures ClientMove(s, c).Some?
  {
    assert ClientRel(s, QueueOf(s.ring), w, c) && WP.WindowOk(w, c);
    hide Rel, RL.Inv, KL.Inv, WP.Inv, RP.CanGo;
    if !s.ring.threads[c].Outside? {
      GoesOn(s.ring, c);
    }
  }

  lemma GoesOn(s: R.State, t: nat)
    requires R.Shape(s) && t < |s.threads| && RP.CanGo(s, t)
    ensures R.Step(s, R.Advance(t)).Some?
  {
  }

  lemma ClientGoesOn(s: System, w: W.System, c: nat) returns (chs: seq<W.Choice>, w': W.System)
    requires Good(s, w) && c < |s.clients| && c < |w.clients| && ClientCan(s, w, c)
    ensures Useful(s, w, ClientStep(c), chs, w')
  {
    ClientMoves(s, w, c);
    var s' := ClientMove(s, c).value;
    chs, w' := ClientSim(s, w, c, s');
    assert Step(s, ClientStep(c)) == Some(s');
    hide Nearer, ClientMove, RL.Inv, KL.Inv, WP.Inv, Rel, Follows, RP.HoldersOk, KP.LocksOk, QueueOf, StoreOf;
    MutexesStay(s, ClientStep(c));
    ProtocolGoes(w, chs, w');
    if s.ring.threads[c].Outside? {
      ClientElsewhere(s, w, c, s', chs, w');
    } else {
      ClientInside(s, w, c, s', chs, w');
    }
  }

  lemma ServerMoves(s: System, x: nat)
    requires Shape(s) && x < |s.servers| && ServerCan(s, x)
    ensures ServerMove(s, x).Some?
  {
    if !s.ring.threads[|s.clients| + x].Outside? {
      GoesOn(s.ring, |s.clients| + x);
    } else if !s.table.threads[x].Outside? {
      KP.Nearer(s.table, x);
    }
  }

  lemma ServerGoesOn(s: System, w: W.System, x: nat) returns (chs: seq<W.Choice>, w': W.System)
    requires Good(s, w) && x < |s.servers| && ServerCan(s, x)
    ensures Useful(s, w, ServerStep(x), chs, w')
  {
    ServerMoves(s, x);
    var s' := ServerMove(s, x).value;
    chs, w' := ServerSim(s, w, x, s');
    assert Step(s, ServerStep(x)) == Some(s');
    hide Nearer, ServerMove, RL.Inv, KL.Inv, WP.Inv, Rel, Follows, RP.HoldersOk, KP.LocksOk, QueueOf, StoreOf;
    MutexesStay(s, ServerStep(x));
    ProtocolGoes(w, chs, w');
    if !s.ring.threads[|s.clients| + x].Outside? {
      ServerInside(s, w, x, s', chs, w');
    } else if !s.table.threads[x].Outside? {
      ServerInTable(s, w, x, s', chs, w');
    } else {
      ServerElsewhere(s, w, x, s', chs, w');
    }
  }

  /** Who can move in the ring. */
  ghost predicate Stuck(s: System)
    requires Shape(s)
  {
    forall t :: 0 <= t < |s.ring.threads| ==> !RP.CanGo(s.ring, t)
  }

  /** If nobody can, then everybody is outside or waits for the queue, and rightly so. */
  lemma StuckInRing(s: System, w: W.System)
    requires Good(s, w) && Stuck(s)
    ensures forall t :: 0 <= t < |s.ring.threads| ==> RP.Resting(s.ring.threads[t])
    ensures forall t :: 0 <= t < |s.ring.threads| ==>
              (s.ring.threads[t].TakeWait? ==> w.queue == []) && (s.ring.threads[t].SubmitWait? ==> w.queue != [])
  {
    forall t | 0 <= t < |s.ring.threads|
      ensures RP.Resting(s.ring.threads[t])
    {
      if !RP.Resting(s.ring.threads[t]) {
        var u := RP.SomebodyCan(s.ring, t);
      }
    }
    RP.AllRest(s.ring);
    assert |w.queue| == |RL.Queue(s.ring)|;
    hide RL.Inv, KL.Inv, WP.Inv, Rel;
    forall t | 0 <= t < |s.ring.threads|
      ensures s.ring.threads[t].TakeWait? ==> w.queue == []
      ensures s.ring.threads[t].SubmitWait? ==> w.queue != []
    {
      assert !RP.CanGo(s.ring, t);
    }
  }

  /** All threads are outside of the ring or wait there, and nobody is in the table. */
  ghost predicate Quiet(s: System, w: W.System)
    requires Shape(s)
  {
    && (forall t :: 0 <= t < |s.ring.threads| ==> RP.Resting(s.ring.threads[t]))
    && (forall t :: 0 <= t < |s.ring.threads| ==>
          (s.ring.threads[t].TakeWait? ==> w.queue == []) && (s.ring.threads[t].SubmitWait? ==> w.queue != []))
    && (forall x :: 0 <= x < |s.table.threads| ==> s.table.threads[x].Outside?)
  }

  /** Then a server has its step to do ... */
  lemma QuietServer(s: System, w: W.System, x: nat)
    requires Related(s, w) && Quiet(s, w) && x < |s.servers| && (!s.servers[x].Waiting? || w.queue != [])
    ensures ServerCan(s, x)
  {
    OutsideIsIdle(s);
    assert ServerRel(s, QueueOf(s.ring), StoreOf(s.table), w, x);
    InRing(s.ring, |s.clients| + x);
    hide RL.Inv, KL.Inv, WP.Inv;
  }

  lemma InRing(s: R.State, t: nat)
    requires RL.Inv(s) && t < |s.threads|
    ensures QueueOf(s).status[t] == RL.StatusOf(s.threads[t])
  {
  }

  /** ... or every client that has not finished has. */
  lemma QuietClient(s: System, w: W.System, c: nat)
    requires Related(s, w) && Quiet(s, w) && c < |s.clients| && c < |w.clients|
    requires w.queue == [] && (forall x :: 0 <= x < |s.servers| ==> s.servers[x].Waiting?)
    requires !w.clients[c].pc.Finished?
    ensures ClientCan(s, w, c)
  {
    OutsideIsIdle(s);
    assert ClientRel(s, QueueOf(s.ring), w, c) && WP.WindowOk(w, c);
    InRing(s.ring, c);
    forall x | 0 <= x < |w.servers|
      ensures w.servers[x].Waiting?
    {
      assert ServerRel(s, QueueOf(s.ring), StoreOf(s.table), w, x);
      InRing(s.ring, |s.clients| + x);
    }
    hide RL.Inv, KL.Inv, Rel;
    if w.clients[c].pc.Checking? {
      AnswerIsOnBoard(w, c);
    }
  }

  /** While client `c` has not finished, somebody brings the service nearer to its end. */
  lemma SomebodyUseful(s: System, w: W.System, c: nat) returns (ch: Choice, chs: seq<W.Choice>, w': W.System)
    requires Good(s, w) && 0 < |s.servers| && c < |s.clients|
    requires !s.clients[c].pc.Finished?
    ensures Useful(s, w, ch, chs, w')
  {
    hide Useful, RL.Inv, KL.Inv, WP.Inv, RP.HoldersOk, KP.LocksOk, RP.CanGo, KP.CanGo;
    assert ClientRel(s, QueueOf(s.ring), w, c);
    hide Rel, ClientRel;
    if t :| 0 <= t < |s.ring.threads| && RP.CanGo(s.ring, t) {
      InsideRing(s.ring, t);
      if t < |s.clients| {
        ch := ClientStep(t);
        chs, w' := ClientGoesOn(s, w, t);
      } else {
        ch := ServerStep(t - |s.clients|);
        chs, w' := ServerGoesOn(s, w, t - |s.clients|);
      }
      return;
    }
    StuckInRing(s, w);
    if y :| 0 <= y < |s.table.threads| && !s.table.threads[y].Outside? {
      var x := KP.SomebodyCan(s.table, y);
      InTableOnly(s, w, x);
      ch := ServerStep(x);
      chs, w' := ServerGoesOn(s, w, x);
    } else if x :| 0 <= x < |s.servers| && (!s.servers[x].Waiting? || w.queue != []) {
      QuietServer(s, w, x);
      ch := ServerStep(x);
      chs, w' := ServerGoesOn(s, w, x);
    } else {
      assert s.servers[0].Waiting? && w.queue == [];
      QuietClient(s, w, c);
      ch := ClientStep(c);
      chs, w' := ClientGoesOn(s, w, c);
    }
  }

  lemma InsideRing(s: R.State, t: nat)
    requires t < |s.threads| && RP.CanGo(s, t)
    ensures !s.threads[t].Outside?
  {
  }

  /** A server in the table is not in the ring. */
  lemma InTableOnly(s: System, w: W.System, x: nat)
    requires Related(s, w) && x < |s.servers| && KP.CanGo(s.table, x)
    ensures s.ring.threads[|s.clients| + x].Outside? && ServerCan(s, x)
  {
    OutsideIsIdle(s);
    assert ServerRel(s, QueueOf(s.ring), StoreOf(s.table), w, x);
  }

  // ---------------------------------------------------------------------------
  // Runs

  lemma {:induction false} MutexesReachable(win: W.Positive, base: nat, requests: seq<seq<W.Request>>, servers: nat,
                                            size: nat, schedule: seq<Choice>)
    requires size > 0
    ensures var s := Execute(win, base, requests, servers, size, schedule);
            RP.HoldersOk(s.ring) && KP.LocksOk(s.table)
  {
    if schedule != [] {
      var init, ch := schedule[..|schedule| - 1], schedule[|schedule| - 1];
      MutexesReachable(win, base, requests, servers, size, init);
      hide Step, RP.HoldersOk, KP.LocksOk;
      if Step(Execute(win, base, requests, servers, size, init), ch).Some? {
        MutexesStay(Execute(win, base, requests, servers, size, init), ch);
      }
    }
  }

  /** Every client thread has come to its end. */
  predicate AllFinished(s: System) {
    forall c :: 0 <= c < |s.clients| ==> s.clients[c].pc.Finished?
  }

  lemma {:induction false} GoesToEnd(win: W.Positive, base: nat, requests: seq<seq<W.Request>>, servers: nat, size: nat,
                                     schedule: seq<Choice>, w: W.System)
    returns (more: seq<Choice>)
    requires size > 0 && servers > 0
    requires Good(Execute(win, base, requests, servers, size, schedule), w)
    ensures AllFinished(Execute(win, base, requests, servers, size, schedule + more))
    decreases Work(Execute(win, base, requests, servers, size, schedule), w),
              Waits(Execute(win, base, requests, servers, size, schedule))
  {
    hide Step, Good, Work, Waits, Shape, Start;
    var s := Execute(win, base, requests, servers, size, schedule);
    if c :| 0 <= c < |s.clients| && !s.clients[c].pc.Finished? {
      var ch, chs, w' := SomebodyUseful(s, w, c);
      assert (schedule + [ch])[..|schedule + [ch]| - 1] == schedule;
      assert Execute(win, base, requests, servers, size, schedule + [ch]) == Step(s, ch).value;
      var rest := GoesToEnd(win, base, requests, servers, size, schedule + [ch], w');
      more := [ch] + rest;
      assert schedule + more == (schedule + [ch]) + rest;
    } else {
      more := [];
      assert schedule + more == schedule;
    }
  }

  /**
   Nobody is ever locked out: from every state that any schedule leads to, with at least one server, some
   continuation brings every client to its end, with the answers to all its requests, those of one
   sequential execution.
   */
  lemma AllCanComplete(win: W.Positive, base: nat, requests: seq<seq<W.Request>>, servers: nat, size: nat,
                       schedule: seq<Choice>)
    returns (more: seq<Choice>, log: seq<W.Entry>)
    requires size > 0 && servers > 0
    ensures WP.Sequential(log) && Once(log)
    ensures var s := Execute(win, base, requests, servers, size, schedule + more);
            && AllFinished(s) && (forall c :: 0 <= c < |requests| ==> s.clients[c].lastCompleted == |requests[c]|)
            && AllAnswered(s, requests, log)
  {
    hide Execute, WP.Execute, Related, AllAnswered, WP.Sequential, Once, AllCalled, InTime;
    var ws, ns := Simulates(win, base, requests, servers, size, schedule);
    assert RelatedAt(win, base, requests, servers, size, schedule, ws, |schedule|, ns[|schedule|]);
    assert schedule[..|schedule|] == schedule && ws[..|ws|] == ws;
    MutexesReachable(win, base, requests, servers, size, schedule);
    more := GoesToEnd(win, base, requests, servers, size, schedule, WP.Execute(win, requests, servers, ws));
    FinishedIsDone(win, base, requests, servers, size, schedule + more);
    log := ServiceLinearizable(win, base, requests, servers, size, schedule + more);
    assert (schedule + more)[..|schedule + more|] == schedule + more;
  }

  /** A client that has finished has completed all its requests. */
  lemma FinishedIsDone(win: W.Positive, base: nat, requests: seq<seq<W.Request>>, servers: nat, size: nat,
                    schedule: seq<Choice>)
    requires size > 0
    ensures var s := Execute(win, base, requests, servers, size, schedule);
            forall c :: 0 <= c < |requests| ==>
              s.clients[c].pc.Finished? ==> s.clients[c].lastCompleted == |requests[c]|
  {
    var ws, ns := Simulates(win, base, requests, servers, size, schedule);
    assert RelatedAt(win, base, requests, servers, size, schedule, ws, |schedule|, ns[|schedule|]);
    assert schedule[..|schedule|] == schedule && ws[..|ws|] == ws;
    WP.RequestsStay(win, requests, servers, ws);
    var s, w := Execute(win, base, requests, servers, size, schedule), WP.Execute(win, requests, servers, ws);
    hide Execute, WP.Execute;
    forall c | 0 <= c < |requests|
      ensures s.clients[c].pc.Finished? ==> s.clients[c].lastCompleted == |requests[c]|
    {
      assert ClientRel(s, QueueOf(s.ring), w, c) && WP.WindowOk(w, c);
    }
  }
}

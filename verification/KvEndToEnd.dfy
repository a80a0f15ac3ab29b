/**
 What the clients of the whole service see. Each run of it is a run of the window protocol with an
 atomic queue and an atomic store: a request enters and leaves the queue, and is run, when the ring
 and the table take effect. So all that holds of the protocol holds of the service.
 */
module KvEndToEnd {
  import opened Wrappers
  import opened Linearizability
  import opened KvSystem
  import R = Ring
  import RL = RingLinearizable
  import KV = KvStore
  import KL = KvLinearizable
  import W = Window
  import WP = WindowProtocol

  type Queue = Atomic<seq<Descriptor>, R.Op, R.Result>

  type Store = Atomic<map<Uint32, Uint32>, KV.Op, KV.Result>

  // ---------------------------------------------------------------------------
  // The ring and the table as atomic objects

  ghost function QueueOf(s: R.State): Queue
    requires RL.Inv(s)
  {
    RL.Abs(s)
  }

  ghost function StoreOf(s: KV.Table): Store
    requires KL.Inv(s)
  {
    KL.Abs(s)
  }

  /** A step of thread `t` that shows `es`: at most one act of the atomic object. */
  ghost predicate Acts<S, O, Res>(spec: Object<S, O, Res>, a: Atomic<S, O, Res>, t: nat, es: seq<Event<O, Res>>,
                                  a': Atomic<S, O, Res>)
  {
    if es == [] then a' == a || AtomicStep(spec, a, Effect(t)) == Some(a')
    else |es| == 1 && es[0].Return? && es[0].tid == t && AtomicStep(spec, a, Visible(es[0])) == Some(a')
  }

  lemma OneAct<S, O, Res>(spec: Object<S, O, Res>, a: Atomic<S, O, Res>, act: Act<O, Res>)
    ensures Run(spec, a, []) == Some(a) && Run(spec, a, [act]) == AtomicStep(spec, a, act)
    ensures Events([act]) == match act case Visible(e) => [e] case Effect(_) => []
  {
    assert [act][..0] == [];
  }

  lemma RingActs(s: R.State, t: nat)
    requires RL.Inv(s) && R.Step(s, R.Advance(t)).Some?
    ensures var (s', es) := R.Step(s, R.Advance(t)).value;
            RL.Inv(s') && Acts(RL.QueueObject, QueueOf(s), t, es, QueueOf(s'))
  {
    RL.InvStep(s, R.Advance(t));
    RL.StepRefines(s, R.Advance(t));
    RingAct(s, t);
    hide RL.ActsOf, R.Step, RL.Abs, RL.Inv, Run, AtomicStep;
    var acts := RL.ActsOf(s, R.Advance(t));
    NoAct(RL.QueueObject, QueueOf(s));
    if acts != [] {
      OneAct(RL.QueueObject, QueueOf(s), acts[0]);
      assert acts == [acts[0]];
    }
  }

  lemma RingAct(s: R.State, t: nat)
    requires R.Shape(s) && R.Step(s, R.Advance(t)).Some?
    ensures var acts := RL.ActsOf(s, R.Advance(t));
            |acts| <= 1 && (acts != [] ==> OwnAct(acts[0], t))
  {
  }

  lemma RingStarts(s: R.State, t: nat, op: R.Op)
    requires RL.Inv(s) && R.Step(s, R.Start(t, op)).Some?
    ensures var (s', es) := R.Step(s, R.Start(t, op)).value;
            RL.Inv(s') && AtomicStep(RL.QueueObject, QueueOf(s), Visible(Call(t, op))) == Some(QueueOf(s'))
  {
    RL.InvStep(s, R.Start(t, op));
    RL.StepRefines(s, R.Start(t, op));
    OneAct(RL.QueueObject, QueueOf(s), Visible(Call(t, op)));
  }

  lemma TableActs(s: KV.Table, t: nat)
    requires KL.Inv(s) && KV.Step(s, KV.Advance(t)).Some?
    ensures var (s', es) := KV.Step(s, KV.Advance(t)).value;
            KL.Inv(s') && Acts(KL.MapObject, StoreOf(s), t, es, StoreOf(s'))
  {
    KL.InvStep(s, KV.Advance(t));
    KL.StepRefines(s, KV.Advance(t));
    TableAct(s, t);
    hide KL.ActsOf, KV.Step, KL.Abs, KL.Inv, Run, AtomicStep;
    var acts := KL.ActsOf(s, KV.Advance(t));
    NoAct(KL.MapObject, StoreOf(s));
    if acts != [] {
      OneAct(KL.MapObject, StoreOf(s), acts[0]);
      assert acts == [acts[0]];
    }
  }

  /** Going on in the table is at most one act of that thread. */
  lemma TableAct(s: KV.Table, t: nat)
    requires KV.Shape(s) && KV.Step(s, KV.Advance(t)).Some?
    ensures var acts := KL.ActsOf(s, KV.Advance(t));
            |acts| <= 1 && (acts != [] ==> OwnAct(acts[0], t))
  {
  }

  /** It shows its return just when it goes outside. */
  lemma TableReturns(s: KV.Table, t: nat)
    requires KV.Shape(s) && KV.Step(s, KV.Advance(t)).Some?
    ensures var (s', es) := KV.Step(s, KV.Advance(t)).value; es != [] <==> s'.threads[t] == KV.Outside
  {
  }

  /** The act is an effect or a return of thread `t`. */
  predicate OwnAct<O, Res>(act: Act<O, Res>, t: nat) {
    match act
    case Effect(u) => u == t
    case Visible(e) => e.Return? && e.tid == t
  }

  lemma NoAct<S, O, Res>(spec: Object<S, O, Res>, a: Atomic<S, O, Res>)
    ensures Run(spec, a, []) == Some(a) && Events<O, Res>([]) == []
  {
  }

  lemma TableStarts(s: KV.Table, t: nat, op: KV.Op)
    requires KL.Inv(s) && KV.Step(s, KV.Start(t, op)).Some?
    ensures var (s', es) := KV.Step(s, KV.Start(t, op)).value;
            KL.Inv(s') && AtomicStep(KL.MapObject, StoreOf(s), Visible(Call(t, op))) == Some(StoreOf(s'))
  {
    KL.InvStep(s, KV.Start(t, op));
    KL.StepRefines(s, KV.Start(t, op));
    OneAct(KL.MapObject, StoreOf(s), Visible(Call(t, op)));
  }

  // ---------------------------------------------------------------------------
  // How the service and the protocol are related

  /** A message as bytes in memory. */
  function Wire(s: System, m: W.Message): Descriptor {
    R.Descriptor(m.t, m.k, m.v, Offset(s, m.client, m.slot), m.ready)
  }

  /** The descriptor has what a client reads of the message. */
  predicate Says(d: Descriptor, m: W.Message) {
    d.reqType == m.t && d.k == m.k && d.v == m.v && d.ready == m.ready
  }

  ghost predicate ClientRel(s: System, q: Queue, w: W.System, c: nat)
    requires c < |s.clients| == |w.clients| <= |q.status|
  {
    var cl, wc := s.clients[c], w.clients[c];
    && wc.reqs == cl.reqs && wc.lastCompleted == cl.lastCompleted && wc.nxtComp == cl.nxtComp && wc.pc == cl.pc
    && |wc.res| == |cl.res| && (forall i :: 0 <= i < |cl.res| ==> Says(cl.res[i], wc.res[i]))
    && match q.status[c]
       case Idle => wc.lastSubmitted == cl.lastSubmitted
       case Pending(op) =>
         && wc.lastSubmitted == cl.lastSubmitted && cl.pc.Submitting?
         && MaySubmit(s, c) && op == R.Submit(NextDescriptor(s, c))
       case Applied(res) => wc.lastSubmitted == cl.lastSubmitted + 1 && cl.pc.Submitting? && res == R.Submitted
  }

  ghost predicate SameServer(s: System, sv: Server, wv: W.Server) {
    match sv
    case Waiting => wv.Waiting?
    case Got(bd) => wv.Got? && Wire(s, wv.bd) == bd
    case Copied(bd) => wv.Copied? && Wire(s, wv.bd) == bd
    case Executed(bd, output) => wv.Executed? && Wire(s, wv.bd) == bd && wv.output == output
    case Answered(bd) => wv.Answered? && Wire(s, wv.bd) == bd
  }

  ghost predicate ServerRel(s: System, q: Queue, m: Store, w: W.System, x: nat)
    requires x < |s.servers| == |w.servers| == |m.status| && |q.status| == |s.clients| + |s.servers|
  {
    var sv, wv := s.servers[x], w.servers[x];
    match q.status[|s.clients| + x]
    case Pending(op) => op == R.Take && sv.Waiting? && wv.Waiting? && m.status[x].Idle?
    case Applied(res) => res.Took? && sv.Waiting? && wv.Got? && Wire(s, wv.bd) == res.bd && m.status[x].Idle?
    case Idle =>
      match m.status[x]
      case Pending(op) => sv.Copied? && wv.Copied? && Wire(s, wv.bd) == sv.bd && op == OpOf(sv.bd)
      case Applied(res) =>
        sv.Copied? && wv.Executed? && Wire(s, wv.bd) == sv.bd && wv.output == OutputOf(sv.bd, res)
      case Idle => SameServer(s, sv, wv)
  }

  ghost predicate BoardRel(s: System, w: W.System) {
    forall c: nat, j: nat :: c < |s.clients| && j < s.win ==> Says(Cell(s, Offset(s, c, j)), W.Slot(w, c, j))
  }

  ghost predicate QueueRel(s: System, q: Queue, w: W.System) {
    |q.obj| == |w.queue| && forall i :: 0 <= i < |q.obj| ==> q.obj[i] == Wire(s, w.queue[i])
  }

  ghost predicate Sizes(s: System, q: Queue, m: Store, w: W.System) {
    && |w.clients| == |s.clients| && |w.servers| == |s.servers| == |m.status|
    && |q.status| == |s.clients| + |s.servers| && w.win == s.win
  }

  ghost predicate Rel(s: System, q: Queue, m: Store, w: W.System) {
    && Sizes(s, q, m, w)
    && (forall c :: 0 <= c < |s.clients| ==> ClientRel(s, q, w, c))
    && (forall x :: 0 <= x < |s.servers| ==> ServerRel(s, q, m, w, x))
    && BoardRel(s, w) && QueueRel(s, q, w) && m.obj == w.store
  }

  /** `w` has taken one step, or none. */
  ghost predicate Follows(w: W.System, chs: seq<W.Choice>, w': W.System) {
    if chs == [] then w' == w else |chs| == 1 && W.Step(w, chs[0]) == Some(w')
  }

  // ---------------------------------------------------------------------------
  // Steps of a client

  /** Inside ring_submit. */
  lemma ClientInRing(s: System, q: Queue, m: Store, w: W.System, c: nat, es: seq<Event<R.Op, R.Result>>, q': Queue,
                     s': System)
    returns (chs: seq<W.Choice>, w': W.System)
    requires Rel(s, q, m, w) && c < |s.clients| && !q.status[c].Idle? && Acts(RL.QueueObject, q, c, es, q')
    requires s' == (if es == [] then s
                    else SetClient(s, c, s.clients[c].(lastSubmitted := s.clients[c].lastSubmitted + 1)))
    ensures Follows(w, chs, w') && Rel(s', q', m, w')
    ensures chs != [] ==> chs == [W.ClientStep(c)] && q.status[c].Pending?
  {
    chs, w' := [], w;
    assert ClientRel(s, q, w, c);
    if es == [] && q' != q {
      chs := [W.ClientStep(c)];
      w' := W.Submit(w, c);
      SubmitEffect(s, q, m, w, c, q', w');
    } else if es != [] {
      SubmitReturns(s, q, m, w, c, q', s');
    }
  }

  lemma SubmitEffect(s: System, q: Queue, m: Store, w: W.System, c: nat, q': Queue, w': W.System)
    requires Rel(s, q, m, w) && c < |s.clients| && q' != q && AtomicStep(RL.QueueObject, q, Effect(c)) == Some(q')
    requires w.clients[c].lastSubmitted < |w.clients[c].reqs| ==> w' == W.Submit(w, c)
    ensures W.Step(w, W.ClientStep(c)) == Some(w') && Rel(s, q', m, w')
  {
    assert ClientRel(s, q, w, c);
    var d := NextDescriptor(s, c);
    assert q'.obj == q.obj + [d] && q'.status == q.status[c := Applied(R.Submitted)];
    assert d == Wire(s, W.MessageFor(w, c, w.clients[c].lastSubmitted));
    forall b | 0 <= b < |s.clients|
      ensures ClientRel(s, q', w', b)
    {
      assert ClientRel(s, q, w, b);
    }
    forall x | 0 <= x < |s.servers|
      ensures ServerRel(s, q', m, w', x)
    {
      assert ServerRel(s, q, m, w, x);
    }
    assert BoardRel(s, w');
  }

  lemma SubmitReturns(s: System, q: Queue, m: Store, w: W.System, c: nat, q': Queue, s': System)
    requires Rel(s, q, m, w) && c < |s.clients|
    requires q.status[c].Applied? && q' == q.(status := q.status[c := Idle])
    requires s' == SetClient(s, c, s.clients[c].(lastSubmitted := s.clients[c].lastSubmitted + 1))
    ensures Rel(s', q', m, w)
  {
    forall b | 0 <= b < |s.clients|
      ensures ClientRel(s', q', w, b)
    {
      assert ClientRel(s, q, w, b);
    }
    forall x | 0 <= x < |s.servers|
      ensures ServerRel(s', q', m, w, x)
    {
      assert ServerRel(s, q, m, w, x);
    }
    BoardSame(s, s', w);
  }

  lemma BoardSame(s: System, s': System, w: W.System)
    requires BoardRel(s, w) && s'.board == s.board && s'.base == s.base && s'.win == s.win
    requires |s'.clients| == |s.clients|
    ensures BoardRel(s', w)
  {
    forall c: nat, j: nat | c < |s.clients| && j < s.win
      ensures Says(Cell(s', Offset(s', c, j)), W.Slot(w, c, j))
    {
      assert Says(Cell(s, Offset(s, c, j)), W.Slot(w, c, j));
    }
  }

  /** The call of ring_submit. */
  lemma ClientCalls(s: System, q: Queue, m: Store, w: W.System, c: nat, q': Queue)
    requires Rel(s, q, m, w) && c < |s.clients| && q.status[c].Idle? && s.clients[c].pc.Submitting? && MaySubmit(s, c)
    requires AtomicStep(RL.QueueObject, q, Visible(Call(c, R.Submit(NextDescriptor(s, c))))) == Some(q')
    ensures Rel(s, q', m, w)
  {
    forall b | 0 <= b < |s.clients|
      ensures ClientRel(s, q', w, b)
    {
      assert ClientRel(s, q, w, b);
    }
    forall x | 0 <= x < |s.servers|
      ensures ServerRel(s, q', m, w, x)
    {
      assert ServerRel(s, q, m, w, x);
    }
  }

  /** Only the program counter changes. */
  lemma ClientGoes(s: System, q: Queue, m: Store, w: W.System, c: nat, pc: W.ClientPc)
    requires Rel(s, q, m, w) && c < |s.clients| && q.status[c].Idle?
    ensures c < |w.clients| && Rel(SetClient(s, c, s.clients[c].(pc := pc)), q, m, W.SetPc(w, c, pc))
  {
    var s', w' := SetClient(s, c, s.clients[c].(pc := pc)), W.SetPc(w, c, pc);
    forall b | 0 <= b < |s.clients|
      ensures ClientRel(s', q, w', b)
    {
      assert ClientRel(s, q, w, b);
    }
    forall x | 0 <= x < |s.servers|
      ensures ServerRel(s', q, m, w', x)
    {
      assert ServerRel(s, q, m, w, x);
    }
    BoardSame(s, s', w');
  }

  /** Slots that differ are at different offsets. */
  lemma OffsetsApart(s: System, c: nat, j: nat, c': nat, j': nat)
    requires c < |s.clients| && c' < |s.clients| && j < s.win && j' < s.win
    ensures Offset(s, c, j) == Offset(s, c', j') <==> (c, j) == (c', j')
  {
    W.SlotsDisjoint(s.base, s.win, |s.clients|, c, j, c', j');
  }

  /** One slot is written on either side. */
  lemma BoardWritten(s: System, w: W.System, c: nat, j: nat, d: Descriptor, msg: W.Message, s': System, w': W.System)
    requires BoardRel(s, w) && c < |s.clients| == |s'.clients| && j < s.win && Says(d, msg)
    requires s'.board == s.board[Offset(s, c, j) := d] && s'.base == s.base && s'.win == s.win
    requires w'.board == w.board[(c, j) := msg]
    ensures BoardRel(s', w')
  {
    forall b: nat, k: nat | b < |s.clients| && k < s.win
      ensures Says(Cell(s', Offset(s', b, k)), W.Slot(w', b, k))
    {
      assert Says(Cell(s, Offset(s, b, k)), W.Slot(w, b, k));
      OffsetsApart(s, b, k, c, j);
    }
  }

  lemma ClientClears(s: System, q: Queue, m: Store, w: W.System, c: nat, s': System)
    requires Rel(s, q, m, w) && c < |s.clients| && q.status[c].Idle? && s.clients[c].nxtComp < s.win
    requires var off := Offset(s, c, s.clients[c].nxtComp);
             s' == SetClient(s, c, s.clients[c].(pc := W.Copying)).(
                     board := s.board[off := Cell(s, off).(ready := false)])
    ensures c < |w.clients| && Rel(s', q, m, W.Clear(w, c))
  {
    var w', j := W.Clear(w, c), s.clients[c].nxtComp;
    assert ClientRel(s, q, w, c);
    assert Says(Cell(s, Offset(s, c, j)), W.Slot(w, c, j));
    forall b | 0 <= b < |s.clients|
      ensures ClientRel(s', q, w', b)
    {
      assert ClientRel(s, q, w, b);
    }
    forall x | 0 <= x < |s.servers|
      ensures ServerRel(s', q, m, w', x)
    {
      assert ServerRel(s, q, m, w, x);
    }
    BoardWritten(s, w, c, j, Cell(s, Offset(s, c, j)).(ready := false), W.Slot(w, c, j).(ready := false), s', w');
  }

  lemma ClientCopies(s: System, q: Queue, m: Store, w: W.System, c: nat, s': System)
    requires Rel(s, q, m, w) && c < |s.clients| && q.status[c].Idle? && s.clients[c].nxtComp < s.win
    requires var cl := s.clients[c];
             && cl.lastCompleted < |cl.res|
             && s' == SetClient(s, c, cl.(
                        res := cl.res[cl.lastCompleted := Cell(s, Offset(s, c, cl.nxtComp))],
                        lastCompleted := cl.lastCompleted + 1,
                        nxtComp := W.SlotOf(cl.nxtComp + 1, s.win),
                        pc := W.Checking))
    ensures c < |w.clients| && w.clients[c].lastCompleted < |w.clients[c].res| && Rel(s', q, m, W.Complete(w, c))
  {
    assert ClientRel(s, q, w, c);
    var w', j := W.Complete(w, c), s.clients[c].nxtComp;
    assert Says(Cell(s, Offset(s, c, j)), W.Slot(w, c, j));
    forall b | 0 <= b < |s.clients|
      ensures ClientRel(s', q, w', b)
    {
      assert ClientRel(s, q, w, b);
    }
    forall x | 0 <= x < |s.servers|
      ensures ServerRel(s', q, m, w', x)
    {
      assert ServerRel(s, q, m, w, x);
    }
    BoardSame(s, s', w');
  }

  // ---------------------------------------------------------------------------
  // Steps of a server

  /** Its message names a slot of the board. */
  lemma ItsSlot(w: W.System, x: nat)
    requires WP.Inv(w) && x < |w.servers| && !w.servers[x].Waiting?
    ensures w.servers[x].bd.client < |w.clients| && w.servers[x].bd.slot < w.win
  {
    assert WP.ServedOk(w, x);
  }

  /** The server and its statuses have changed, and the rest is as it was. */
  lemma ServerGoes(s: System, q: Queue, m: Store, w: W.System, x: nat, s': System, q': Queue, m': Store, w': W.System)
    requires Rel(s, q, m, w) && x < |s.servers| && |s'.servers| == |s.servers| && |w'.servers| == |w.servers|
    requires s'.clients == s.clients && s'.win == s.win && s'.base == s.base
    requires s'.servers == s.servers[x := s'.servers[x]]
    requires |q'.status| == |q.status| && q'.status == q.status[|s.clients| + x := q'.status[|s.clients| + x]]
    requires |m'.status| == |m.status| && m'.status == m.status[x := m'.status[x]]
    requires w'.clients == w.clients && w'.win == w.win && w'.servers == w.servers[x := w'.servers[x]]
    requires ServerRel(s', q', m', w', x) && QueueRel(s', q', w') && m'.obj == w'.store && BoardRel(s', w')
    ensures Rel(s', q', m', w')
  {
    forall b | 0 <= b < |s.clients|
      ensures ClientRel(s', q', w', b)
    {
      assert ClientRel(s, q, w, b);
    }
    forall y | 0 <= y < |s.servers|
      ensures ServerRel(s', q', m', w', y)
    {
      assert ServerRel(s, q, m, w, y);
    }
  }

  /** Inside ring_get. */
  lemma ServerInRing(s: System, q: Queue, m: Store, w: W.System, x: nat, es: seq<Event<R.Op, R.Result>>, q': Queue,
                     s': System)
    returns (chs: seq<W.Choice>, w': W.System)
    requires Rel(s, q, m, w) && x < |s.servers| && !q.status[|s.clients| + x].Idle?
    requires Acts(RL.QueueObject, q, |s.clients| + x, es, q')
    requires s' == if es != [] && es[0].Return? && es[0].res.Took? then SetServer(s, x, Got(es[0].res.bd)) else s
    ensures Follows(w, chs, w') && Rel(s', q', m, w')
    ensures chs != [] ==> chs == [W.ServerStep(x)]
  {
    chs, w' := [], w;
    assert ServerRel(s, q, m, w, x);
    if es == [] && q' != q {
      chs := [W.ServerStep(x)];
      w' := TakeEffect(s, q, m, w, x, q');
    } else if es != [] {
      BoardSame(s, s', w);
      ServerGoes(s, q, m, w, x, s', q', m, w);
    }
  }

  lemma TakeEffect(s: System, q: Queue, m: Store, w: W.System, x: nat, q': Queue) returns (w': W.System)
    requires Rel(s, q, m, w) && x < |s.servers| && q' != q
    requires AtomicStep(RL.QueueObject, q, Effect(|s.clients| + x)) == Some(q')
    ensures W.Step(w, W.ServerStep(x)) == Some(w') && Rel(s, q', m, w')
  {
    assert ServerRel(s, q, m, w, x);
    assert q.obj != [] && q'.obj == q.obj[1..];
    assert q'.status == q.status[|s.clients| + x := Applied(R.Took(q.obj[0]))];
    w' := W.TakeRequest(w, x);
    assert BoardRel(s, w');
    ServerGoes(s, q, m, w, x, s, q', m, w');
  }

  /** Inside put or get. */
  lemma ServerInTable(s: System, q: Queue, m: Store, w: W.System, x: nat, es: seq<Event<KV.Op, KV.Result>>, m': Store,
                      s': System)
    returns (chs: seq<W.Choice>, w': W.System)
    requires Rel(s, q, m, w) && x < |s.servers| && q.status[|s.clients| + x].Idle? && !m.status[x].Idle?
    requires Acts(KL.MapObject, m, x, es, m')
    requires s' == if es != [] && es[0].Return? && s.servers[x].Copied? then
                     SetServer(s, x, Executed(s.servers[x].bd, OutputOf(s.servers[x].bd, es[0].res)))
                   else s
    ensures Follows(w, chs, w') && Rel(s', q, m', w')
    ensures chs != [] ==> chs == [W.ServerStep(x)]
    ensures chs == [] && es == [] ==> m' == m
  {
    chs, w' := [], w;
    assert ServerRel(s, q, m, w, x);
    if es == [] && m' != m {
      chs := [W.ServerStep(x)];
      w' := ExecuteEffect(s, q, m, w, x, m');
    } else if es != [] {
      BoardSame(s, s', w);
      ServerGoes(s, q, m, w, x, s', q, m', w);
    }
  }

  lemma ExecuteEffect(s: System, q: Queue, m: Store, w: W.System, x: nat, m': Store) returns (w': W.System)
    requires Rel(s, q, m, w) && x < |s.servers| && q.status[|s.clients| + x].Idle? && m' != m
    requires AtomicStep(KL.MapObject, m, Effect(x)) == Some(m')
    ensures W.Step(w, W.ServerStep(x)) == Some(w') && Rel(s, q, m', w')
  {
    assert ServerRel(s, q, m, w, x);
    var msg := w.servers[x].bd;
    w' := W.ExecuteRequest(w, x, msg);
    assert m'.obj == w'.store;
    assert BoardRel(s, w');
    ServerGoes(s, q, m, w, x, s, q, m', w');
  }

  /** The calls of ring_get and of put or get. */
  lemma ServerCalls(s: System, q: Queue, m: Store, w: W.System, x: nat, q': Queue, m': Store)
    requires Rel(s, q, m, w) && x < |s.servers| && q.status[|s.clients| + x].Idle? && m.status[x].Idle?
    requires || (s.servers[x].Waiting? && m' == m
                 && AtomicStep(RL.QueueObject, q, Visible(Call(|s.clients| + x, R.Take))) == Some(q'))
             || (s.servers[x].Copied? && q' == q
                 && AtomicStep(KL.MapObject, m, Visible(Call(x, OpOf(s.servers[x].bd)))) == Some(m'))
    ensures Rel(s, q', m', w)
  {
    assert ServerRel(s, q, m, w, x);
    ServerGoes(s, q, m, w, x, s, q', m', w);
  }

  /** The server writes its slot of the board. */
  lemma ServerStores(s: System, q: Queue, m: Store, w: W.System, x: nat, d: Descriptor, msg: W.Message, sv: Server,
                     wv: W.Server, w': W.System)
    requires Rel(s, q, m, w) && WP.Inv(w) && x < |s.servers| && q.status[|s.clients| + x].Idle? && m.status[x].Idle?
    requires !w.servers[x].Waiting? && Says(d, msg) && SameServer(s, sv, wv)
    requires var bd := w.servers[x].bd;
             w' == w.(servers := w.servers[x := wv], board := w.board[(bd.client, bd.slot) := msg], place := w'.place)
    ensures var bd := w.servers[x].bd;
            Rel(SetServer(s, x, sv).(board := s.board[Offset(s, bd.client, bd.slot) := d]), q, m, w')
  {
    ItsSlot(w, x);
    var bd := w.servers[x].bd;
    var s' := SetServer(s, x, sv).(board := s.board[Offset(s, bd.client, bd.slot) := d]);
    BoardWritten(s, w, bd.client, bd.slot, d, msg, s', w');
    ServerGoes(s, q, m, w, x, s', q, m, w');
  }

  lemma ItsCell(s: System, q: Queue, m: Store, w: W.System, x: nat)
    requires Rel(s, q, m, w) && WP.Inv(w) && x < |w.servers| && !w.servers[x].Waiting?
    ensures var bd := w.servers[x].bd; Says(Cell(s, Offset(s, bd.client, bd.slot)), W.Slot(w, bd.client, bd.slot))
  {
    ItsSlot(w, x);
  }

  lemma ServerCopies(s: System, q: Queue, m: Store, w: W.System, x: nat, s': System) returns (w': W.System)
    requires Rel(s, q, m, w) && WP.Inv(w) && x < |s.servers| && q.status[|s.clients| + x].Idle? && m.status[x].Idle?
    requires s.servers[x].Got? && var bd := s.servers[x].bd;
                                  s' == SetServer(s, x, Copied(bd)).(board := s.board[bd.resOff := bd])
    ensures W.Step(w, W.ServerStep(x)) == Some(w') && Rel(s', q, m, w')
  {
    assert ServerRel(s, q, m, w, x);
    var bd, msg := s.servers[x].bd, w.servers[x].bd;
    w' := W.WriteSlot(w, x, W.Copied(msg), msg, msg);
    hide Rel;
    ServerStores(s, q, m, w, x, bd, msg, Copied(bd), W.Copied(msg), w');
  }

  lemma ServerAnswers(s: System, q: Queue, m: Store, w: W.System, x: nat, s': System) returns (w': W.System)
    requires Rel(s, q, m, w) && WP.Inv(w) && x < |s.servers| && q.status[|s.clients| + x].Idle? && m.status[x].Idle?
    requires s.servers[x].Executed? &&
             var bd, output, cell := s.servers[x].bd, s.servers[x].output, Cell(s, s.servers[x].bd.resOff);
             s' == SetServer(s, x, Answered(bd)).(
                     board := s.board[bd.resOff := if bd.reqType == R.GET then cell.(v := output) else cell])
    ensures W.Step(w, W.ServerStep(x)) == Some(w') && Rel(s', q, m, w')
  {
    assert ServerRel(s, q, m, w, x);
    ItsCell(s, q, m, w, x);
    var bd, msg, output := s.servers[x].bd, w.servers[x].bd, s.servers[x].output;
    var cell, slot := Cell(s, bd.resOff), W.Slot(w, msg.client, msg.slot);
    var d := if bd.reqType == R.GET then cell.(v := output) else cell;
    var to := if msg.t == R.GET then slot.(v := output) else slot;
    w' := W.WriteSlot(w, x, W.Answered(msg, output), msg, to);
    hide Rel;
    ServerStores(s, q, m, w, x, d, to, Answered(bd), W.Answered(msg, output), w');
  }

  lemma ServerReadies(s: System, q: Queue, m: Store, w: W.System, x: nat, s': System) returns (w': W.System)
    requires Rel(s, q, m, w) && WP.Inv(w) && x < |s.servers| && q.status[|s.clients| + x].Idle? && m.status[x].Idle?
    requires s.servers[x].Answered? &&
             var bd := s.servers[x].bd;
             s' == SetServer(s, x, Waiting).(board := s.board[bd.resOff := Cell(s, bd.resOff).(ready := true)])
    ensures W.Step(w, W.ServerStep(x)) == Some(w') && Rel(s', q, m, w')
  {
    assert ServerRel(s, q, m, w, x);
    ItsCell(s, q, m, w, x);
    var bd, msg := s.servers[x].bd, w.servers[x].bd;
    var to := W.Slot(w, msg.client, msg.slot).(ready := true);
    w' := W.Ready(w, x, msg);
    hide Rel;
    ServerStores(s, q, m, w, x, Cell(s, bd.resOff).(ready := true), to, Waiting, W.Waiting, w');
  }

  // ---------------------------------------------------------------------------
  // Runs

  /** The service is in order, and `w` is the state of the window protocol that it is in. */
  ghost predicate Related(s: System, w: W.System) {
    Shape(s) && RL.Inv(s.ring) && KL.Inv(s.table) && WP.Inv(w) && Rel(s, QueueOf(s.ring), StoreOf(s.table), w)
  }

  /** The relation does not look into the ring or the table. */
  lemma OnlyAbs(s: System, s': System, q: Queue, m: Store, w: W.System)
    requires Rel(s, q, m, w) && s' == s.(ring := s'.ring, table := s'.table)
    ensures Rel(s', q, m, w)
  {
    forall c | 0 <= c < |s.clients|
      ensures ClientRel(s', q, w, c)
    {
      assert ClientRel(s, q, w, c);
    }
    forall x | 0 <= x < |s.servers|
      ensures ServerRel(s', q, m, w, x)
    {
      assert ServerRel(s, q, m, w, x);
    }
    BoardSame(s, s', w);
  }

  /** A thread is outside of the ring or the table just when its status says so. */
  lemma OutsideIsIdle(s: System)
    requires Shape(s) && RL.Inv(s.ring) && KL.Inv(s.table)
    ensures |QueueOf(s.ring).status| == |s.ring.threads| && |StoreOf(s.table).status| == |s.table.threads|
    ensures forall t :: 0 <= t < |s.ring.threads| ==> (QueueOf(s.ring).status[t].Idle? <==> s.ring.threads[t].Outside?)
    ensures forall x :: 0 <= x < |s.table.threads| ==>
              (StoreOf(s.table).status[x].Idle? <==> s.table.threads[x].Outside?)
  {
  }

  /** One step of a client of the service is one step of the protocol, or none. */
  lemma ClientSim(s: System, w: W.System, c: nat, s': System) returns (chs: seq<W.Choice>, w': W.System)
    requires Related(s, w) && c < |s.clients| && ClientMove(s, c) == Some(s')
    ensures Follows(w, chs, w') && RL.Inv(s'.ring) && KL.Inv(s'.table)
    ensures Rel(s', QueueOf(s'.ring), StoreOf(s'.table), w')
    ensures chs != [] ==> chs == [W.ClientStep(c)]
    ensures s.ring.threads[c] != R.Outside && chs != [] ==> QueueOf(s.ring).status[c].Pending?
    ensures s.ring.threads[c] == R.Outside ==> (chs == [] <==> s.clients[c].pc.Submitting? && MaySubmit(s, c))
  {
    hide Rel, RL.Inv, KL.Inv, QueueOf, StoreOf, R.Step, KV.Step, Acts, AtomicStep;
    OutsideIsIdle(s);
    var q, m := QueueOf(s.ring), StoreOf(s.table);
    chs, w' := [], w;
    if s.ring.threads[c] != R.Outside {
      RingActs(s.ring, c);
      var (ring, es) := R.Step(s.ring, R.Advance(c)).value;
      var s1 := if es == [] then s
                else SetClient(s, c, s.clients[c].(lastSubmitted := s.clients[c].lastSubmitted + 1));
      chs, w' := ClientInRing(s, q, m, w, c, es, QueueOf(ring), s1);
      OnlyAbs(s1, s', QueueOf(ring), m, w');
    } else if s.clients[c].pc.Submitting? && MaySubmit(s, c) {
      var op := R.Submit(NextDescriptor(s, c));
      RingStarts(s.ring, c, op);
      ClientCalls(s, q, m, w, c, QueueOf(s'.ring));
      OnlyAbs(s, s', QueueOf(s'.ring), m, w);
    } else {
      chs := [W.ClientStep(c)];
      w' := ClientLocal(s, q, m, w, c, s');
    }
  }

  /** The steps that have nothing to do with the ring. */
  lemma ClientLocal(s: System, q: Queue, m: Store, w: W.System, c: nat, s': System) returns (w': W.System)
    requires Shape(s) && WP.Inv(w) && Rel(s, q, m, w) && c < |s.clients| && ClientMove(s, c) == Some(s')
    requires q.status[c].Idle? && s.ring.threads[c].Outside? && !(s.clients[c].pc.Submitting? && MaySubmit(s, c))
    ensures W.Step(w, W.ClientStep(c)) == Some(w') && Rel(s', q, m, w')
    ensures s'.ring == s.ring && s'.table == s.table
  {
    var cl := s.clients[c];
    assert ClientRel(s, q, w, c) && WP.WindowOk(w, c);
    assert Says(Cell(s, Offset(s, c, cl.nxtComp)), W.Slot(w, c, cl.nxtComp));
    hide Rel;
    match cl.pc {
      case Submitting =>
        w' := W.SetPc(w, c, W.Checking);
        ClientGoes(s, q, m, w, c, W.Checking);
      case Checking =>
        if Cell(s, Offset(s, c, cl.nxtComp)).ready {
          w' := W.SetPc(w, c, W.Clearing);
          ClientGoes(s, q, m, w, c, W.Clearing);
        } else if cl.lastSubmitted < |cl.reqs| {
          w' := W.SetPc(w, c, W.Submitting);
          ClientGoes(s, q, m, w, c, W.Submitting);
        } else if cl.lastCompleted < |cl.reqs| {
          w' := w;
        } else {
          w' := W.SetPc(w, c, W.Finished);
          ClientGoes(s, q, m, w, c, W.Finished);
        }
      case Clearing =>
        w' := W.Clear(w, c);
        ClientClears(s, q, m, w, c, s');
      case Copying =>
        w' := W.Complete(w, c);
        ClientCopies(s, q, m, w, c, s');
    }
  }

  lemma ServerSim(s: System, w: W.System, x: nat, s': System) returns (chs: seq<W.Choice>, w': W.System)
    requires Related(s, w) && x < |s.servers| && ServerMove(s, x) == Some(s')
    ensures Follows(w, chs, w') && RL.Inv(s'.ring) && KL.Inv(s'.table)
    ensures Rel(s', QueueOf(s'.ring), StoreOf(s'.table), w')
    ensures chs != [] ==> chs == [W.ServerStep(x)]
    ensures var busy := s.ring.threads[|s.clients| + x] != R.Outside || s.table.threads[x] != KV.Outside;
            if busy then chs == [] && s'.table.threads[x] != KV.Outside ==> StoreOf(s'.table) == StoreOf(s.table)
            else (chs == [] <==> s.servers[x].Waiting? || s.servers[x].Copied?)
  {
    hide Rel, RL.Inv, KL.Inv, QueueOf, StoreOf, R.Step, KV.Step, Acts, AtomicStep, W.Step;
    OutsideIsIdle(s);
    var t, q, m := |s.clients| + x, QueueOf(s.ring), StoreOf(s.table);
    chs, w' := [], w;
    if s.ring.threads[t] != R.Outside {
      RingActs(s.ring, t);
      var (ring, es) := R.Step(s.ring, R.Advance(t)).value;
      var s1 := if es != [] && es[0].Return? && es[0].res.Took? then SetServer(s, x, Got(es[0].res.bd)) else s;
      chs, w' := ServerInRing(s, q, m, w, x, es, QueueOf(ring), s1);
      OnlyAbs(s1, s', QueueOf(ring), m, w');
    } else if s.table.threads[x] != KV.Outside {
      TableActs(s.table, x);
      TableReturns(s.table, x);
      var (table, es) := KV.Step(s.table, KV.Advance(x)).value;
      var s1 := if es != [] && es[0].Return? && s.servers[x].Copied? then
                  SetServer(s, x, Executed(s.servers[x].bd, OutputOf(s.servers[x].bd, es[0].res)))
                else s;
      chs, w' := ServerInTable(s, q, m, w, x, es, StoreOf(table), s1);
      OnlyAbs(s1, s', q, StoreOf(table), w');
    } else {
      match s.servers[x] {
        case Waiting =>
          RingStarts(s.ring, t, R.Take);
          ServerCalls(s, q, m, w, x, QueueOf(s'.ring), m);
          OnlyAbs(s, s', QueueOf(s'.ring), m, w);
        case Copied(bd) =>
          TableStarts(s.table, x, OpOf(bd));
          ServerCalls(s, q, m, w, x, q, StoreOf(s'.table));
          OnlyAbs(s, s', q, StoreOf(s'.table), w);
        case Got(_) =>
          chs := [W.ServerStep(x)];
          w' := ServerCopies(s, q, m, w, x, s');
        case Executed(_, _) =>
          chs := [W.ServerStep(x)];
          w' := ServerAnswers(s, q, m, w, x, s');
        case Answered(_) =>
          chs := [W.ServerStep(x)];
          w' := ServerReadies(s, q, m, w, x, s');
      }
    }
  }

  /** One step of the service is one step of the protocol, or none. */
  lemma StepSim(s: System, w: W.System, ch: Choice, s': System) returns (chs: seq<W.Choice>, w': W.System)
    requires Related(s, w) && Step(s, ch) == Some(s')
    ensures Follows(w, chs, w') && RL.Inv(s'.ring) && KL.Inv(s'.table)
    ensures Shape(s') && Rel(s', QueueOf(s'.ring), StoreOf(s'.table), w')
  {
    hide Rel, Related, RL.Inv, KL.Inv, Follows, ClientMove, ServerMove;
    match ch {
      case ClientStep(c) => chs, w' := ClientSim(s, w, c, s');
      case ServerStep(x) => chs, w' := ServerSim(s, w, x, s');
    }
  }

  lemma FollowsOn(win: W.Positive, requests: seq<seq<W.Request>>, servers: nat, ws: seq<W.Choice>, chs: seq<W.Choice>,
                  w': W.System)
    requires Follows(WP.Execute(win, requests, servers, ws), chs, w')
    ensures WP.Execute(win, requests, servers, ws + chs) == w' && WP.Inv(w')
  {
    WP.Reachable(win, requests, servers, ws + chs);
    hide W.Step, WP.Inv;
    if chs == [] {
      assert ws + chs == ws;
    } else {
      assert (ws + chs)[..|ws + chs| - 1] == ws;
    }
  }

  lemma NextSim(win: W.Positive, requests: seq<seq<W.Request>>, servers: nat, s: System, ws: seq<W.Choice>, ch: Choice,
                s': System)
    returns (chs: seq<W.Choice>)
    requires Related(s, WP.Execute(win, requests, servers, ws)) && Step(s, ch) == Some(s')
    ensures Related(s', WP.Execute(win, requests, servers, ws + chs))
  {
    hide WP.Execute, WP.Inv, Rel, Follows, RL.Inv, KL.Inv, Shape, Step;
    var w';
    chs, w' := StepSim(s, WP.Execute(win, requests, servers, ws), ch, s');
    FollowsOn(win, requests, servers, ws, chs, w');
  }

  lemma StartRelated(win: W.Positive, base: nat, requests: seq<seq<W.Request>>, servers: nat, size: nat)
    requires size > 0
    ensures Related(Start(win, base, requests, servers, size), WP.Execute(win, requests, servers, []))
  {
    var s, w := Start(win, base, requests, servers, size), W.InitSystem(win, requests, servers);
    RL.InitInv(|requests| + servers);
    KL.Simulation(size, servers, []);
    WP.InitInv(win, requests, servers);
    var q, m := QueueOf(s.ring), StoreOf(s.table);
    assert m.obj == map[];
    assert BoardRel(s, w) && QueueRel(s, q, w);
  }

  /** After `k` choices the service is where the protocol is after `n`. */
  ghost predicate RelatedAt(win: W.Positive, base: nat, requests: seq<seq<W.Request>>, servers: nat, size: nat,
                            schedule: seq<Choice>, ws: seq<W.Choice>, k: nat, n: nat)
    requires size > 0 && k <= |schedule|
  {
    && n <= |ws|
    && Related(Execute(win, base, requests, servers, size, schedule[..k]), WP.Execute(win, requests, servers, ws[..n]))
  }

  /** Every run of the service is a run of the protocol, moment by moment. */
  lemma {:induction false} Simulates(win: W.Positive, base: nat, requests: seq<seq<W.Request>>, servers: nat, size: nat,
                                     schedule: seq<Choice>)
    returns (ws: seq<W.Choice>, ns: seq<nat>)
    requires size > 0
    ensures |ns| == |schedule| + 1 && ns[|schedule|] == |ws|
    ensures forall k: nat :: k <= |schedule| ==>
              RelatedAt(win, base, requests, servers, size, schedule, ws, k, ns[k])
    ensures forall k :: 0 <= k < |schedule| ==> ns[k] <= ns[k + 1]
  {
    hide Related, Step, WP.Execute, Start;
    if schedule == [] {
      ws, ns := [], [0];
      StartRelated(win, base, requests, servers, size);
      assert schedule[..0] == [] && ws[..0] == [];
    } else {
      var n := |schedule| - 1;
      var init, ch := schedule[..n], schedule[n];
      var ws0, ns0 := Simulates(win, base, requests, servers, size, init);
      assert RelatedAt(win, base, requests, servers, size, init, ws0, n, ns0[n]);
      assert init[..n] == init && ws0[..|ws0|] == ws0;
      var s := Execute(win, base, requests, servers, size, init);
      ws := ws0;
      if Step(s, ch).Some? {
        var chs := NextSim(win, requests, servers, s, ws0, ch, Step(s, ch).value);
        ws := ws0 + chs;
      }
      ns := ns0 + [|ws|];
      forall k: nat | k <= |schedule|
        ensures RelatedAt(win, base, requests, servers, size, schedule, ws, k, ns[k])
      {
        if k <= n {
          assert RelatedAt(win, base, requests, servers, size, init, ws0, k, ns0[k]);
          assert init[..k] == schedule[..k] && ws0[..ns0[k]] == ws[..ns0[k]];
        } else {
          assert schedule[..k] == schedule && ws[..|ws|] == ws;
        }
      }
    }
  }

  // ---------------------------------------------------------------------------
  // What the clients see

  /** The result that client `c` has for request `i` is what the store gave to it, at place `p` of the log. */
  ghost predicate AnsweredAt(s: System, requests: seq<seq<W.Request>>, c: nat, i: nat, log: seq<W.Entry>, p: nat) {
    && c < |s.clients| == |requests| && i < |requests[c]| && i < |s.clients[c].res| && p < |log|
    && log[p] == W.Entry(c, i, requests[c][i], s.clients[c].res[i].v)
    && s.clients[c].res[i].k == requests[c][i].k && s.clients[c].res[i].reqType == requests[c][i].t
  }

  ghost predicate Completed(s: System, c: nat, i: nat) {
    c < |s.clients| && i < s.clients[c].lastCompleted
  }

  /** The client has called ring_submit for the request. */
  ghost predicate Called(s: System, c: nat, i: nat) {
    && c < |s.clients| <= |s.ring.threads|
    && (i < s.clients[c].lastSubmitted || (i == s.clients[c].lastSubmitted && s.ring.threads[c] != R.Outside))
  }

  predicate SameRequest(e: W.Entry, f: W.Entry) { e.client == f.client && e.index == f.index }

  ghost predicate Once(log: seq<W.Entry>) {
    forall p, q :: 0 <= p < |log| && 0 <= q < |log| && SameRequest(log[p], log[q]) ==> p == q
  }

  /** Every entry of the log is a request of a client that has called for it. */
  ghost predicate AllCalled(s: System, requests: seq<seq<W.Request>>, log: seq<W.Entry>) {
    forall p :: 0 <= p < |log| ==>
      && log[p].client < |requests| && log[p].index < |requests[log[p].client]|
      && log[p].req == requests[log[p].client][log[p].index]
      && Called(s, log[p].client, log[p].index)
  }

  /** All completed requests have their answers from the log. */
  ghost predicate AllAnswered(s: System, requests: seq<seq<W.Request>>, log: seq<W.Entry>) {
    forall c: nat, i: nat :: Completed(s, c, i) ==> exists p: nat :: AnsweredAt(s, requests, c, i, log, p)
  }

  /** What was completed in `s` is in the log before anything that was not called in `s`. */
  ghost predicate InTime(s: System, log: seq<W.Entry>) {
    forall c: nat, i: nat, p: nat, q: nat ::
      Completed(s, c, i) && p < |log| && q < |log| && log[p].client == c && log[p].index == i
      && !Called(s, log[q].client, log[q].index) ==>
        p < q
  }

  lemma AnswersOf(win: W.Positive, requests: seq<seq<W.Request>>, servers: nat, ws: seq<W.Choice>, s: System)
    requires var w := WP.Execute(win, requests, servers, ws); Related(s, w)
    ensures AllAnswered(s, requests, WP.Execute(win, requests, servers, ws).log)
  {
    hide Related, AnsweredAt, Completed, WP.Execute;
    var log := WP.Execute(win, requests, servers, ws).log;
    forall c: nat, i: nat | Completed(s, c, i)
      ensures exists p: nat :: AnsweredAt(s, requests, c, i, log, p)
    {
      var p := AnswerOf(win, requests, servers, ws, s, c, i);
    }
  }

  lemma AnswerOf(win: W.Positive, requests: seq<seq<W.Request>>, servers: nat, ws: seq<W.Choice>, s: System, c: nat,
                 i: nat)
    returns (p: nat)
    requires var w := WP.Execute(win, requests, servers, ws); Related(s, w)
    requires Completed(s, c, i)
    ensures AnsweredAt(s, requests, c, i, WP.Execute(win, requests, servers, ws).log, p)
  {
    var w := WP.Execute(win, requests, servers, ws);
    WP.RequestsStay(win, requests, servers, ws);
    p := WP.AnswersDelivered(win, requests, servers, ws, c, i);
    hide WP.Execute;
    assert ClientRel(s, QueueOf(s.ring), w, c);
    assert Says(s.clients[c].res[i], w.clients[c].res[i]);
  }

  /** Answers stay answers when the log grows. */
  lemma MoreLog(s: System, requests: seq<seq<W.Request>>, log: seq<W.Entry>, log': seq<W.Entry>)
    requires AllAnswered(s, requests, log) && log <= log'
    ensures AllAnswered(s, requests, log')
  {
    forall c: nat, i: nat | Completed(s, c, i)
      ensures exists p: nat :: AnsweredAt(s, requests, c, i, log', p)
    {
      var p: nat :| AnsweredAt(s, requests, c, i, log, p);
      assert AnsweredAt(s, requests, c, i, log', p);
    }
  }

  /** What was completed or not called in the service is completed or not submitted in the protocol. */
  lemma TimesAgree(s: System, w: W.System, c: nat, i: nat)
    requires Related(s, w)
    ensures Completed(s, c, i) ==> WP.Completed(w, c, i)
    ensures !Called(s, c, i) ==> !WP.Submitted(w, c, i)
  {
    OutsideIsIdle(s);
    if c < |s.clients| {
      assert ClientRel(s, QueueOf(s.ring), w, c);
    }
  }

  /** The log of the protocol is a sequential execution of requests that were called. */
  lemma LogFacts(win: W.Positive, requests: seq<seq<W.Request>>, servers: nat, ws: seq<W.Choice>, s: System)
    requires Related(s, WP.Execute(win, requests, servers, ws))
    ensures var log := WP.Execute(win, requests, servers, ws).log;
            WP.Sequential(log) && Once(log) && AllCalled(s, requests, log)
  {
    WP.Reachable(win, requests, servers, ws);
    WP.RequestsStay(win, requests, servers, ws);
    var w := WP.Execute(win, requests, servers, ws);
    var log := w.log;
    forall p, q | 0 <= p < |log| && 0 <= q < |log| && SameRequest(log[p], log[q])
      ensures p == q
    {
      WP.RunOnce(win, requests, servers, ws, log[p].client, log[p].index, p, q);
    }
    hide WP.Execute, Related, Called;
    forall p | 0 <= p < |log|
      ensures log[p].client < |requests| && log[p].index < |requests[log[p].client]|
      ensures log[p].req == requests[log[p].client][log[p].index] && Called(s, log[p].client, log[p].index)
    {
      assert WP.EntryOk(w, p);
      TimesAgree(s, w, log[p].client, log[p].index);
    }
  }

  /** A moment of the run, seen from its end: the answers there, and the order in time. */
  lemma MomentFacts(win: W.Positive, requests: seq<seq<W.Request>>, servers: nat, earlier: seq<W.Choice>,
                    more: seq<W.Choice>, s: System)
    requires Related(s, WP.Execute(win, requests, servers, earlier))
    ensures var log := WP.Execute(win, requests, servers, earlier + more).log;
            AllAnswered(s, requests, log) && InTime(s, log)
  {
    var w, log := WP.Execute(win, requests, servers, earlier), WP.Execute(win, requests, servers, earlier + more).log;
    AnswersOf(win, requests, servers, earlier, s);
    WP.LogGrows(win, requests, servers, earlier, more);
    hide WP.Execute, AllAnswered, Related, Completed, Called, WP.Completed, WP.Submitted;
    MoreLog(s, requests, w.log, log);
    forall c: nat, i: nat, p: nat, q: nat | Completed(s, c, i) && p < |log| && q < |log| && log[p].client == c
                                            && log[p].index == i && !Called(s, log[q].client, log[q].index)
      ensures p < q
    {
      TimesAgree(s, w, c, i);
      TimesAgree(s, w, log[q].client, log[q].index);
      WP.RealTimeOrder(win, requests, servers, earlier, more, c, i, log[q].client, log[q].index, p, q);
    }
  }

  /**
   The main result. For any number of clients with any requests, any window, any number of servers and
   of buckets, and any schedule of single accesses: there is one order of requests, each at most once
   and only such as clients have called for, in which a sequential store gives exactly the answers that
   the clients have at any moment; and a request that is completed at a moment comes before every one
   that is not called yet.
   */
  lemma ServiceLinearizable(win: W.Positive, base: nat, requests: seq<seq<W.Request>>, servers: nat, size: nat,
                            schedule: seq<Choice>)
    returns (log: seq<W.Entry>)
    requires size > 0
    ensures WP.Sequential(log) && Once(log)
    ensures AllCalled(Execute(win, base, requests, servers, size, schedule), requests, log)
    ensures forall k: nat :: k <= |schedule| ==>
              var s := Execute(win, base, requests, servers, size, schedule[..k]);
              AllAnswered(s, requests, log) && InTime(s, log)
  {
    hide Execute, Related, AllCalled, AllAnswered, InTime, WP.Execute;
    var ws, ns := Simulates(win, base, requests, servers, size, schedule);
    log := WP.Execute(win, requests, servers, ws).log;
    assert RelatedAt(win, base, requests, servers, size, schedule, ws, |schedule|, ns[|schedule|]);
    assert schedule[..|schedule|] == schedule && ws[..|ws|] == ws;
    LogFacts(win, requests, servers, ws, Execute(win, base, requests, servers, size, schedule));
    forall k: nat | k <= |schedule|
      ensures var s := Execute(win, base, requests, servers, size, schedule[..k]);
              AllAnswered(s, requests, log) && InTime(s, log)
    {
      assert RelatedAt(win, base, requests, servers, size, schedule, ws, k, ns[k]);
      assert ws[..ns[k]] + ws[ns[k]..] == ws;
      MomentFacts(win, requests, servers, ws[..ns[k]], ws[ns[k]..],
                  Execute(win, base, requests, servers, size, schedule[..k]));
    }
  }

  /** With one client and one request in flight the answers are those of a sequential replay. */
  lemma SynchronousService(base: nat, requests: seq<W.Request>, servers: nat, size: nat, schedule: seq<Choice>, i: nat)
    requires size > 0
    ensures var cl := Execute(1, base, [requests], servers, size, schedule).clients[0];
            i < cl.lastCompleted ==>
              i < |requests| && i < |cl.res| &&
              cl.res[i].v == W.Output(WP.StoreAfter(requests, i), requests[i].t, requests[i].k, requests[i].v)
  {
    var ws, ns := Simulates(1, base, [requests], servers, size, schedule);
    assert RelatedAt(1, base, [requests], servers, size, schedule, ws, |schedule|, ns[|schedule|]);
    assert schedule[..|schedule|] == schedule && ws[..|ws|] == ws;
    WP.SynchronousReplay(requests, servers, ws, i);
    var s, w := Execute(1, base, [requests], servers, size, schedule), WP.Execute(1, [requests], servers, ws);
    hide Execute, WP.Execute;
    assert ClientRel(s, QueueOf(s.ring), w, 0);
    if i < s.clients[0].lastCompleted {
      assert Says(s.clients[0].res[i], w.clients[0].res[i]);
    }
  }
}

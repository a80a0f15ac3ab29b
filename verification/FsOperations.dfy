/**
 File operations as runs of the log: each begins, logs the blocks that it changes, and ends. What the
 file layer promises of its operations is all that the results about crashes need.
 */
module FsOperations {
  import opened Wrappers
  import opened Blocks
  import opened LogDisk
  import opened LogProtocol
  import opened LogAtomicity
  import opened FsFiles
  import opened FsSurvival
  import opened Counting
  import FsDisk
  import FsState

  /** The blocks after some operations, one after the other. */
  function BlocksAfter(v: Disk, calls: seq<Call>): Disk {
    if calls == [] then v else calls[|calls| - 1].after
  }

  ghost predicate AllPromised(sb: FsDisk.Super, v: Disk, calls: seq<Call>) {
    forall k :: 0 <= k < |calls| ==> Promised(sb, BlocksAfter(v, calls[..k]), calls[k])
  }

  function JobsOf(calls: seq<Call>): seq<Job> {
    if calls == [] then [] else JobsOf(calls[..|calls| - 1]) + calls[|calls| - 1].jobs
  }

  /** How many blocks the operations log together at most. */
  function LoggedBy(calls: seq<Call>): nat {
    if calls == [] then 0 else LoggedBy(calls[..|calls| - 1]) + |calls[|calls| - 1].logged|
  }

  /** The two disks have the same file system blocks. */
  ghost predicate SameFs(sb: FsDisk.Super, v: Disk, v': Disk) {
    |v| == |v'| && forall b: nat :: sb.inodestart <= b < |v| ==> v'[b] == v[b]
  }

  lemma SameDoes(sb: FsDisk.Super, v: Disk, w: Disk, v': Disk, w': Disk, jobs: seq<Job>)
    requires SameFs(sb, v, w) && SameFs(sb, v', w') && Does(sb, v, v', jobs)
    ensures Does(sb, w, w', jobs)
  {
    forall files | Holds(sb, w, files)
      ensures Holds(sb, w', DoAll(files, jobs))
    {
      SameFiles(sb, w, v, files);
      SameFiles(sb, v', w', DoAll(files, jobs));
    }
  }

  lemma {:induction false} SameApplied(sb: FsDisk.Super, v: Disk, w: Disk, ws: seq<Write>)
    requires SameFs(sb, v, w) && forall i :: 0 <= i < |ws| ==> ws[i].blockno < |v|
    ensures SameFs(sb, Apply(v, ws), Apply(w, ws))
  {
    if ws != [] {
      SameApplied(sb, v, w, ws[..|ws| - 1]);
    }
  }

  // ---------------------------------------------------------------------------
  // Choices of the log

  lemma ExecuteOne(lay: Layout, d: Disk, schedule: seq<Choice>, c: Choice)
    ensures var s := Execute(lay, d, schedule);
            Execute(lay, d, schedule + [c]) == if Step(lay, s, c).Some? then Step(lay, s, c).value else s
  {
    hide Step;
    assert (schedule + [c])[..|schedule|] == schedule;
  }

  /** One more choice, with the jobs of the transaction that it ends. */
  lemma DrivenOn(lay: Layout, sb: FsDisk.Super, d: Disk, schedule: seq<Choice>, jobs: seq<seq<Job>>, c: Choice,
                 group: seq<Job>)
    requires Driven(lay, sb, d, schedule, jobs) && Transaction(sb, d, Execute(lay, d, schedule), c, group)
    ensures Driven(lay, sb, d, schedule + [c], jobs + [group])
  {
    hide Transaction, Execute;
    var schedule', jobs' := schedule + [c], jobs + [group];
    forall k | 0 <= k < |schedule'|
      ensures Transaction(sb, d, Execute(lay, d, schedule'[..k]), schedule'[k], jobs'[k])
    {
      if k < |schedule| {
        assert schedule'[..k] == schedule[..k];
      } else {
        assert schedule'[..k] == schedule;
      }
    }
  }

  /** A run so far, in state `s`. */
  ghost predicate At(lay: Layout, sb: FsDisk.Super, d: Disk, schedule: seq<Choice>, jobs: seq<seq<Job>>, s: State) {
    Driven(lay, sb, d, schedule, jobs) && s == Execute(lay, d, schedule)
  }

  /** A run that goes on. */
  datatype Origin = Origin(lay: Layout, sb: FsDisk.Super, d: Disk, schedule: seq<Choice>, jobs: seq<seq<Job>>)

  /** Some more choices of a run, without a crash, and the jobs of the transactions that they end. */
  datatype More = More(choices: seq<Choice>, groups: seq<seq<Job>>)

  /** The groups that have jobs in them. */
  function Packed(groups: seq<seq<Job>>): seq<seq<Job>> {
    if groups == [] then []
    else
      var last := groups[|groups| - 1];
      Packed(groups[..|groups| - 1]) + if last == [] then [] else [last]
  }

  lemma PackedNone(none: seq<Job>)
    ensures Packed([none]) == if none == [] then [] else [none]
  {
    assert [none][..0] == [];
  }

  ghost predicate Goes(o: Origin, m: More, s: State, all: seq<seq<Job>>)
  {
    && At(o.lay, o.sb, o.d, o.schedule + m.choices, o.jobs + m.groups, s)
    && NoCrash(m.choices) && |m.choices| == |m.groups| && Packed(m.groups) == all
  }

  lemma GoesNowhere(o: Origin, s: State)
    requires At(o.lay, o.sb, o.d, o.schedule, o.jobs, s)
    ensures Goes(o, More([], []), s, [])
  {
    assert o.schedule + [] == o.schedule && o.jobs + [] == o.jobs;
  }

  lemma GoesOn(o: Origin, m: More, s: State,
               all: seq<seq<Job>>, c: Choice, group: seq<Job>, s': State)
    returns (m': More)
    requires Goes(o, m, s, all) && Step(o.lay, s, c) == Some(s') && !c.Crash?
    requires Transaction(o.sb, o.d, s, c, group)
    ensures Goes(o, m', s', all + Packed([group]))
  {
    hide Step, Transaction, Driven;
    m' := More(m.choices + [c], m.groups + [group]);
    ExecuteOne(o.lay, o.d, o.schedule + m.choices, c);
    DrivenOn(o.lay, o.sb, o.d, o.schedule + m.choices, o.jobs + m.groups, c, group);
    PackedOn(m.groups, group);
    hide Execute, Packed;
    assert o.schedule + m'.choices == o.schedule + m.choices + [c];
    assert o.jobs + m'.groups == o.jobs + m.groups + [group];
  }

  lemma PackedOn(groups: seq<seq<Job>>, group: seq<Job>)
    ensures Packed(groups + [group]) == Packed(groups) + Packed([group])
  {
    assert (groups + [group])[..|groups|] == groups;
    PackedNone(group);
  }

  /** A choice that ends no transaction. */
  lemma GoesInside(o: Origin, m: More, s: State, all: seq<seq<Job>>, c: Choice, s': State)
    returns (m': More)
    requires Goes(o, m, s, all) && Step(o.lay, s, c) == Some(s') && !c.Crash?
    requires !EndsTransaction(s, c)
    ensures Goes(o, m', s', all)
  {
    m' := GoesOn(o, m, s, all, c, [], s');
    PackedNone([]);
    assert all + [] == all;
  }

  // ---------------------------------------------------------------------------
  // One operation

  /** Nothing is going on and nothing is logged. */
  ghost predicate Idle(s: State) {
    s.phase.Running? && s.active == [] && s.lh == []
  }

  /** From `s` on operation `i` has logged the writes `ws`. */
  ghost predicate HasLogged(d: Disk, s: State, s': State, i: nat, ws: seq<Write>)
  {
    && InRange(d, s.stable + s.trail) && InRange(d, s'.stable + s'.trail)
    && (forall k :: 0 <= k < |ws| ==> ws[k].blockno < |d|)
    && s' == s.(lh := s'.lh, cache := s'.cache, active := s'.active, trail := s'.trail)
    && |s'.lh| <= |s.lh| + |ws|
    && i < |s'.active| == |s.active| && (forall j :: 0 <= j < |s.active| && j != i ==> s'.active[j] == s.active[j])
    && |s'.active[i].blocks| <= |s.active[i].blocks| + |ws|
    && After(d, s'.stable + s'.trail) == Apply(After(d, s.stable + s.trail), ws)
  }

  lemma NothingLogged(d: Disk, s: State, i: nat)
    requires InRange(d, s.stable + s.trail) && i < |s.active|
    ensures HasLogged(d, s, s, i, [])
  {
  }

  lemma OneMoreLogged(lay: Layout, d: Disk, s: State, s1: State, i: nat, ws: seq<Write>, w: Write)
    requires HasLogged(d, s, s1, i, ws) && w.blockno < |d| <= TWO32
    ensures HasLogged(d, s, Log(s1, i, w.blockno, w.data), i, ws + [w])
  {
    var s' := Log(s1, i, w.blockno, w.data);
    var e := Entry(s1.active[i].id, w);
    assert s'.stable + s'.trail == s1.stable + s1.trail + [e];
    AfterOneMore(d, s1.stable + s1.trail, e);
    ApplyOne(After(d, s.stable + s.trail), ws, w);
    OneMore(s1.active[i].blocks, w.blockno);
    if w.blockno in s1.active[i].blocks {
      assert s1.active[i].blocks + {w.blockno} == s1.active[i].blocks;
    }
  }

  /** Its writes are logged one after the other. */
  lemma {:induction false} LogsAll(o: Origin, m: More, s: State, all: seq<seq<Job>>, i: nat, ws: seq<Write>)
    returns (m': More, s': State)
    requires Goes(o, m, s, all) && Fits(o.lay, o.d) && |s.disk| == |o.d|
    requires s.phase.Running? && i < |s.active| && InRange(o.d, s.stable + s.trail)
    requires |s.active[i].blocks| + |ws| <= MAXOPBLOCKS && |s.lh| + |ws| <= Capacity(o.lay)
    requires forall k :: 0 <= k < |ws| ==> IsHome(o.lay, o.d, ws[k].blockno)
    ensures Goes(o, m', s', all) && HasLogged(o.d, s, s', i, ws)
  {
    hide Goes, Apply, After;
    if ws == [] {
      m', s' := m, s;
      NothingLogged(o.d, s, i);
    } else {
      var init, w := ws[..|ws| - 1], ws[|ws| - 1];
      var m1, s1 := LogsAll(o, m, s, all, i, init);
      OneMore(s1.active[i].blocks, w.blockno);
      assert w.blockno in s1.active[i].blocks ==> s1.active[i].blocks + {w.blockno} == s1.active[i].blocks;
      assert MayLog(o.lay, s1, i, w.blockno);
      s' := Log(s1, i, w.blockno, w.data);
      m' := GoesInside(o, m1, s1, all, LogWrite(i, w.blockno, w.data), s');
      OneMoreLogged(o.lay, o.d, s, s1, i, init, w);
      assert init + [w] == ws;
    }
  }

  /** The operation logs all its changes, and the files that the log shows become those that it leaves. */
  lemma OneCall(o: Origin, m: More, s: State, all: seq<seq<Job>>, i: nat, v: Disk, call: Call)
    returns (m': More, s': State)
    requires Goes(o, m, s, all) && Fits(o.lay, o.d) && |s.disk| == |o.d| && o.lay.start + o.lay.size <= o.sb.inodestart
    requires s.phase.Running? && i < |s.active| && s.active[i].blocks == {} && InRange(o.d, s.stable + s.trail)
    requires |s.lh| + |call.logged| <= Capacity(o.lay) && Promised(o.sb, v, call)
    requires SameFs(o.sb, v, After(o.d, s.stable + s.trail))
    ensures Goes(o, m', s', all) && InRange(o.d, s'.stable + s'.trail)
    ensures s' == s.(lh := s'.lh, cache := s'.cache, active := s'.active, trail := s'.trail)
    ensures |s'.lh| <= |s.lh| + |call.logged| && |s'.active| == |s.active|
    ensures forall j :: 0 <= j < |s.active| && j != i ==> s'.active[j] == s.active[j]
    ensures SameFs(o.sb, call.after, After(o.d, s'.stable + s'.trail))
    ensures Does(o.sb, After(o.d, s.stable + s.trail), After(o.d, s'.stable + s'.trail), call.jobs)
  {
    hide Goes, Does, Apply, After, Fits;
    var w, ws := FsWrites(o.sb, v, call.after, call.logged);
    m', s' := LogsAll(o, m, s, all, i, ws);
    SameApplied(o.sb, v, After(o.d, s.stable + s.trail), ws);
    SameDoes(o.sb, v, After(o.d, s.stable + s.trail), call.after, After(o.d, s'.stable + s'.trail), call.jobs);
  }

  /** The writes of an operation that change the file system, and the blocks after them. */
  lemma FsWrites(sb: FsDisk.Super, v: Disk, v': Disk, logged: set<nat>) returns (w: Disk, ws: seq<Write>)
    requires FsState.AllLogged(v, {}, v', logged)
    ensures |ws| <= |logged| && forall k :: 0 <= k < |ws| ==> sb.inodestart <= ws[k].blockno < |v|
    ensures SameFs(sb, v', w) && Apply(v, ws) == w
  {
    w := seq(|v|, b requires 0 <= b < |v| => if b < sb.inodestart then v[b] else v'[b]);
    var changed := set b | b in logged && b >= sb.inodestart;
    Smaller(changed, logged);
    ws := LoggedWrites(v, w, changed);
  }

  // ---------------------------------------------------------------------------
  // The operations of one transaction

  /** From the idle state `s0` on, `n` operations have begun and the first of them have logged their changes. */
  ghost predicate InTransaction(o: Origin, s0: State, s: State, n: nat, v: Disk, done: seq<Call>) {
    && InRange(o.d, s.stable) && InRange(o.d, s.stable + s.trail)
    && s.phase.Running? && s.disk == s0.disk && s.stable == s0.stable && |s.active| == n && |s.lh| <= LoggedBy(done)
    && (forall j :: |done| <= j < n ==> s.active[j].blocks == {})
    && SameFs(o.sb, BlocksAfter(v, done), After(o.d, s.stable + s.trail))
    && Does(o.sb, After(o.d, s.stable), After(o.d, s.stable + s.trail), JobsOf(done))
  }

  /** The log shows the blocks `v`. */
  ghost predicate Shows(o: Origin, s: State, v: Disk) {
    && InRange(o.d, s.stable) && InRange(o.d, s.stable + s.trail) && |s.disk| == |o.d|
    && SameFs(o.sb, v, After(o.d, s.stable + s.trail))
  }

  lemma DoesNothing(sb: FsDisk.Super, v: Disk)
    ensures Does(sb, v, v, [])
  {
  }

  lemma {:induction false} BeginAll(o: Origin, m: More, s0: State, all: seq<seq<Job>>, n: nat)
    returns (m': More, s: State)
    requires Goes(o, m, s0, all) && Idle(s0) && n * MAXOPBLOCKS <= LOGSIZE
    ensures Goes(o, m', s, all) && s == s0.(active := s.active, nextOp := s.nextOp) && |s.active| == n
    ensures forall j :: 0 <= j < n ==> s.active[j].blocks == {}
  {
    hide Goes;
    if n == 0 {
      m', s := m, s0;
    } else {
      var m1, s1 := BeginAll(o, m, s0, all, n - 1);
      s := Begin(s1);
      m' := GoesInside(o, m1, s1, all, BeginOp, s);
    }
  }

  lemma {:induction false} CallsLogged(o: Origin, m: More, s0: State, all: seq<seq<Job>>, n: nat, v: Disk,
                                       calls: seq<Call>)
    returns (m': More, s: State)
    requires Fits(o.lay, o.d) && |s0.disk| == |o.d| && o.lay.start + o.lay.size <= o.sb.inodestart
    requires Goes(o, m, s0, all) && Idle(s0) && s0.trail == [] && Shows(o, s0, v)
    requires |calls| <= n && n * MAXOPBLOCKS <= LOGSIZE
    requires AllPromised(o.sb, v, calls) && LoggedBy(calls) <= Capacity(o.lay)
    ensures Goes(o, m', s, all) && InTransaction(o, s0, s, n, v, calls)
  {
    hide Goes, Does, After, SameFs, Promised, Fits;
    if calls == [] {
      m', s := BeginAll(o, m, s0, all, n);
      assert s.stable + s.trail == s.stable;
      DoesNothing(o.sb, After(o.d, s.stable));
    } else {
      var init, call := calls[..|calls| - 1], calls[|calls| - 1];
      FewerPromised(o.sb, v, calls);
      var m1, s1 := CallsLogged(o, m, s0, all, n, v, init);
      m', s := OneCall(o, m1, s1, all, |init|, BlocksAfter(v, init), call);
      DoesThen(o.sb, After(o.d, s.stable), After(o.d, s1.stable + s1.trail), After(o.d, s.stable + s.trail),
               JobsOf(init), call.jobs);
    }
  }

  lemma FewerPromised(sb: FsDisk.Super, v: Disk, calls: seq<Call>)
    requires AllPromised(sb, v, calls) && calls != []
    ensures var init := calls[..|calls| - 1];
            AllPromised(sb, v, init) && Promised(sb, BlocksAfter(v, init), calls[|calls| - 1])
  {
    var init := calls[..|calls| - 1];
    forall k | 0 <= k < |init|
      ensures Promised(sb, BlocksAfter(v, init[..k]), init[k])
    {
      assert init[..k] == calls[..k];
      assert Promised(sb, BlocksAfter(v, calls[..k]), calls[k]);
    }
    assert Promised(sb, BlocksAfter(v, calls[..|calls| - 1]), calls[|calls| - 1]);
  }

  /** All but the last operation in progress end. */
  lemma {:induction false} EndMost(o: Origin, m: More, s: State, all: seq<seq<Job>>) returns (m': More, s': State)
    requires Goes(o, m, s, all) && Fresh(o.lay, o.d) && s.phase.Running? && s.active != []
    ensures Goes(o, m', s', all) && |s'.active| == 1 && s' == s.(active := s'.active)
    decreases |s.active|
  {
    hide Goes, Fresh;
    if |s.active| == 1 {
      m', s' := m, s;
    } else {
      EndPossible(o, m, s, all);
      var s1 := End(o.lay, s, 0);
      var m1 := GoesInside(o, m, s, all, EndOp(0), s1);
      m', s' := EndMost(o, m1, s1, all);
    }
  }

  lemma EndPossible(o: Origin, m: More, s: State, all: seq<seq<Job>>)
    requires Goes(o, m, s, all) && Fresh(o.lay, o.d) && s.phase.Running?
    ensures MayPlan(o.lay, s)
  {
    hide Execute;
    Reachable(o.lay, o.d, o.schedule + m.choices);
  }

  /**
   Operations that overlap, each as the file layer promises, make a transaction with their jobs in the
   order in which they logged their changes.
   */
  lemma OperationsAreTransaction(o: Origin, m: More, s0: State, all: seq<seq<Job>>, v: Disk, calls: seq<Call>)
    returns (m': More, s: State)
    requires Fresh(o.lay, o.d) && o.lay.start + o.lay.size <= o.sb.inodestart
    requires Goes(o, m, s0, all) && Idle(s0) && Shows(o, s0, v)
    requires calls != [] && |calls| * MAXOPBLOCKS <= LOGSIZE
    requires AllPromised(o.sb, v, calls) && LoggedBy(calls) <= Capacity(o.lay)
    ensures Goes(o, m', s, all) && EndsTransaction(s, EndOp(0)) && MayPlan(o.lay, s)
    ensures Transaction(o.sb, o.d, s, EndOp(0), JobsOf(calls)) && Shows(o, s, BlocksAfter(v, calls))
  {
    hide Goes, Does, After, SameFs, AllPromised;
    IdleLog(o, m, s0, all);
    var m1, s1 := CallsLogged(o, m, s0, all, |calls|, v, calls);
    m', s := EndMost(o, m1, s1, all);
    EndPossible(o, m', s, all);
  }

  /** When nothing is logged nothing waits. */
  lemma IdleLog(o: Origin, m: More, s: State, all: seq<seq<Job>>)
    requires Goes(o, m, s, all) && Fresh(o.lay, o.d) && Idle(s)
    ensures s.trail == []
  {
    hide Execute;
    Reachable(o.lay, o.d, o.schedule + m.choices);
  }

  /** The file system blocks as the file system reads them: through the pinned buffers. */
  ghost predicate Reads(sb: FsDisk.Super, s: State, v: Disk) {
    |v| == |s.disk| && forall b: nat :: sb.inodestart <= b < |v| ==> v[b] == View(s, b)
  }

  /** What the log shows is what the file system reads. */
  lemma ShownIsRead(o: Origin, m: More, s: State, all: seq<seq<Job>>, v: Disk)
    requires Goes(o, m, s, all) && Fresh(o.lay, o.d) && s.phase.Running?
    requires o.lay.start + o.lay.size <= o.sb.inodestart
    ensures Shows(o, s, v) <==> Reads(o.sb, s, v)
  {
    hide Execute, Fresh, After, View;
    StaysInRange(o.lay, o.d, s) by { Reachable(o.lay, o.d, o.schedule + m.choices); }
    forall b: nat | o.sb.inodestart <= b < |o.d|
      ensures |s.disk| == |o.d| && View(s, b) == After(o.d, s.stable + s.trail)[b]
    {
      ReadsSeeAllWrites(o.lay, o.d, o.schedule + m.choices, b);
    }
    OperationsAtomic(o.lay, o.d, o.schedule + m.choices, []);
  }

  /**
   However the log writes of the operations of a transaction are mixed: if the blocks read at the end
   are those that the jobs make of the committed ones, the transaction does these jobs.
   */
  lemma ReadsMakeTransaction(o: Origin, m: More, s: State, all: seq<seq<Job>>, v: Disk, v': Disk, group: seq<Job>)
    requires Goes(o, m, s, all) && Fresh(o.lay, o.d) && EndsTransaction(s, EndOp(0))
    requires o.lay.start + o.lay.size <= o.sb.inodestart
    requires InRange(o.d, s.stable) ==> SameFs(o.sb, v, After(o.d, s.stable))
    requires Reads(o.sb, s, v') && Does(o.sb, v, v', group)
    ensures Transaction(o.sb, o.d, s, EndOp(0), group)
  {
    hide Goes, Does, After, SameFs, Reads, Fresh;
    ShownIsRead(o, m, s, all, v');
    SameDoes(o.sb, v, After(o.d, s.stable), v', After(o.d, s.stable + s.trail), group);
  }

  // ---------------------------------------------------------------------------
  // Commits

  /** A commit or a recovery runs to its end, and afterwards the log shows the same blocks. */
  lemma {:induction false} WritesEnd(o: Origin, m: More, s: State, all: seq<seq<Job>>, v: Disk)
    returns (m': More, s': State)
    requires Goes(o, m, s, all) && Fresh(o.lay, o.d) && Shows(o, s, v) && !s.phase.Running?
    requires s.active == [] && s.phase.k <= |s.phase.ws|
    ensures Goes(o, m', s', all) && Idle(s') && Shows(o, s', v)
    decreases |s.phase.ws| - s.phase.k
  {
    hide Goes, Fresh, After, SameFs;
    if s.phase.k == |s.phase.ws| {
      s' := Done(s);
      m' := GoesInside(o, m, s, all, Finish, s');
    } else {
      WritePossible(o, m, s, all);
      var s1 := WriteDisk(s);
      assert s1.stable + s1.trail == s.stable + s.trail;
      var m1 := GoesInside(o, m, s, all, DiskWrite, s1);
      m', s' := WritesEnd(o, m1, s1, all, v);
    }
  }

  lemma WritePossible(o: Origin, m: More, s: State, all: seq<seq<Job>>)
    requires Goes(o, m, s, all) && Fresh(o.lay, o.d) && !s.phase.Running? && s.phase.k < |s.phase.ws|
    ensures MayWrite(s)
  {
    hide Execute, DataInv;
    Reachable(o.lay, o.d, o.schedule + m.choices);
    WriteInRange(o.lay, o.d, s);
  }

  lemma WriteInRange(lay: Layout, init: Disk, s: State)
    requires DataInv(lay, init, s) && !s.phase.Running? && s.phase.k < |s.phase.ws|
    ensures MayWrite(s)
  {
    hide CommittingInv, RecoveringInv, RunningInv, Apply;
    var k := s.phase.k;
    assert s.phase.ws[k].blockno < |s.phase.base|;
  }

  /** A transaction from its first operation to the end of its commit. */
  lemma TransactionRuns(o: Origin, m: More, s: State, all: seq<seq<Job>>, v: Disk, calls: seq<Call>)
    returns (m': More, s': State)
    requires Fresh(o.lay, o.d) && o.lay.start + o.lay.size <= o.sb.inodestart
    requires Goes(o, m, s, all) && Idle(s) && Shows(o, s, v)
    requires Together(o.lay, calls) && AllPromised(o.sb, v, calls)
    ensures Goes(o, m', s', all + Packed([JobsOf(calls)])) && Idle(s') && Shows(o, s', BlocksAfter(v, calls))
  {
    hide Goes, Fresh, After, SameFs, AllPromised, Transaction, Packed;
    var m1, s1 := OperationsAreTransaction(o, m, s, all, v, calls);
    var s2 := End(o.lay, s1, 0);
    var m2 := GoesOn(o, m1, s1, all, EndOp(0), JobsOf(calls), s2);
    m', s' := WritesEnd(o, m2, s2, all + Packed([JobsOf(calls)]), BlocksAfter(v, calls));
  }

  /** Operations that fit into one transaction. */
  ghost predicate Together(lay: Layout, calls: seq<Call>) {
    calls != [] && |calls| * MAXOPBLOCKS <= LOGSIZE && LoggedBy(calls) <= Capacity(lay)
  }

  /** The blocks after some transactions. */
  function BlocksOf(v: Disk, ts: seq<seq<Call>>): Disk {
    if ts == [] then v else BlocksAfter(BlocksOf(v, ts[..|ts| - 1]), ts[|ts| - 1])
  }

  function GroupsOf(ts: seq<seq<Call>>): seq<seq<Job>> {
    seq(|ts|, k requires 0 <= k < |ts| => JobsOf(ts[k]))
  }

  /** Transactions that the file layer makes one after the other. */
  ghost predicate Made(lay: Layout, sb: FsDisk.Super, v: Disk, ts: seq<seq<Call>>) {
    forall k :: 0 <= k < |ts| ==> Together(lay, ts[k]) && AllPromised(sb, BlocksOf(v, ts[..k]), ts[k])
  }

  lemma {:induction false} TransactionsRun(o: Origin, s0: State, v: Disk, ts: seq<seq<Call>>)
    returns (m: More, s: State)
    requires Fresh(o.lay, o.d) && o.lay.start + o.lay.size <= o.sb.inodestart
    requires At(o.lay, o.sb, o.d, o.schedule, o.jobs, s0) && Idle(s0) && Shows(o, s0, v)
    requires Made(o.lay, o.sb, v, ts)
    ensures Goes(o, m, s, Packed(GroupsOf(ts))) && Idle(s) && Shows(o, s, BlocksOf(v, ts))
  {
    hide Goes, Fresh, At, Shows, Together, AllPromised;
    if ts == [] {
      m, s := More([], []), s0;
      GoesNowhere(o, s0);
    } else {
      var init, last := ts[..|ts| - 1], ts[|ts| - 1];
      FewerMade(o.lay, o.sb, v, ts);
      var m1, s1 := TransactionsRun(o, s0, v, init);
      m, s := TransactionRuns(o, m1, s1, Packed(GroupsOf(init)), BlocksOf(v, init), last);
      PackedNone(JobsOf(last));
      assert GroupsOf(ts)[..|init|] == GroupsOf(init);
    }
  }

  lemma FewerMade(lay: Layout, sb: FsDisk.Super, v: Disk, ts: seq<seq<Call>>)
    requires Made(lay, sb, v, ts) && ts != []
    ensures var init := ts[..|ts| - 1];
            && Made(lay, sb, v, init) && Together(lay, ts[|ts| - 1])
            && AllPromised(sb, BlocksOf(v, init), ts[|ts| - 1])
  {
    var init := ts[..|ts| - 1];
    forall k | 0 <= k < |init|
      ensures Together(lay, init[k]) && AllPromised(sb, BlocksOf(v, init[..k]), init[k])
    {
      assert init[..k] == ts[..k];
      assert Together(lay, ts[k]) && AllPromised(sb, BlocksOf(v, ts[..k]), ts[k]);
    }
  }

  // ---------------------------------------------------------------------------
  // Crashes

  lemma {:induction false} PackedConcat(groups: seq<seq<Job>>)
    ensures Concat(Packed(groups)) == Concat(groups)
  {
    if groups != [] {
      var init, last := groups[..|groups| - 1], groups[|groups| - 1];
      PackedConcat(init);
      ConcatOn(Packed(init), last);
      assert Packed(groups) == if last == [] then Packed(init) else Packed(init) + [last];
      assert Concat(groups) == Concat(init) + last;
    }
  }

  lemma {:induction false} PackedPrefix(groups: seq<seq<Job>>, k: nat)
    requires k <= |groups|
    ensures Packed(groups[..k]) <= Packed(groups)
  {
    if k < |groups| {
      PackedPrefix(groups[..|groups| - 1], k);
      assert groups[..|groups| - 1][..k] == groups[..k];
    } else {
      assert groups[..k] == groups;
    }
  }

  lemma {:induction false} PackedFirst(groups: seq<seq<Job>>, first: seq<seq<Job>>) returns (k: nat)
    requires first <= Packed(groups)
    ensures k <= |groups| && Packed(groups[..k]) == first
  {
    if first == Packed(groups) {
      k := |groups|;
      assert groups[..k] == groups;
    } else {
      k := PackedFirst(groups[..|groups| - 1], first);
      assert groups[..|groups| - 1][..k] == groups[..k];
    }
  }

  /** The first groups of one list have the same jobs as some first groups of another with the same jobs. */
  lemma SameFirst(groups: seq<seq<Job>>, k: nat, others: seq<seq<Job>>) returns (j: nat)
    requires k <= |groups| && Packed(groups) == Packed(others)
    ensures j <= |others| && Concat(groups[..k]) == Concat(others[..j])
  {
    PackedPrefix(groups, k);
    j := PackedFirst(others, Packed(groups[..k]));
    PackedConcat(groups[..k]);
    PackedConcat(others[..j]);
  }

  /** How many of the first groups have no more than `n` jobs together. */
  function Covered(groups: seq<seq<Job>>, n: nat): (k: nat)
    ensures k <= |groups|
  {
    if groups == [] || |Concat(groups)| <= n then |groups| else Covered(groups[..|groups| - 1], n)
  }

  lemma {:induction false} CoveredMore(groups: seq<seq<Job>>, n: nat, n': nat)
    requires n <= n'
    ensures Covered(groups, n) <= Covered(groups, n')
  {
    if groups != [] {
      CoveredMore(groups[..|groups| - 1], n, n');
    }
  }

  /** If just the jobs of some first groups are meant, these are the ones. */
  lemma {:induction false} CoveredIs(groups: seq<seq<Job>>, j: nat)
    requires j <= |groups|
    ensures var k := Covered(groups, |Concat(groups[..j])|); Concat(groups[..k]) == Concat(groups[..j])
  {
    ConcatPrefix(groups, j);
    assert groups[..|groups|] == groups;
    if j < |groups| && |Concat(groups)| > |Concat(groups[..j])| {
      var init := groups[..|groups| - 1];
      CoveredIs(init, j);
      assert init[..j] == groups[..j];
      var k := Covered(init, |Concat(groups[..j])|);
      assert init[..k] == groups[..k];
    }
  }

  /** A crash after `t` choices: the files come back as the first `k` transactions leave them. */
  ghost predicate KeepsFirst(lay: Layout, sb: FsDisk.Super, d: Disk, files: seq<seq<Byte>>, schedule: seq<Choice>,
                             ts: seq<seq<Call>>, t: nat, k: nat)
    requires t <= |schedule|
  {
    && k <= |ts|
    && RecoversTo(lay, sb, Execute(lay, d, schedule[..t]).disk, DoAll(files, Concat(GroupsOf(ts)[..k])))
  }

  lemma CrashAt(lay: Layout, sb: FsDisk.Super, d: Disk, files: seq<seq<Byte>>, schedule: seq<Choice>,
                jobs: seq<seq<Job>>, kepts: seq<seq<Job>>, ts: seq<seq<Call>>, t: nat)
    requires t <= |schedule| == |jobs| && |kepts| == |schedule| + 1 && kepts[0] == [] && NoCrash(schedule)
    requires SurvivesAt(lay, sb, d, files, schedule, jobs, kepts, t) && Packed(jobs) == Packed(GroupsOf(ts))
    ensures KeepsFirst(lay, sb, d, files, schedule, ts, t, Covered(GroupsOf(ts), |kepts[t]|))
  {
    hide RecoversTo, Execute, Concat, DoAll, Packed, GroupsOf, Covered;
    NoRestart(schedule[..t]);
    var n: nat :| n <= |jobs[0..t]| && kepts[t] == kepts[0] + Concat(jobs[0..t][..n]);
    assert jobs[0..t][..n] == jobs[..n] && kepts[t] == Concat(jobs[..n]);
    var j := SameFirst(jobs, n, GroupsOf(ts));
    CoveredIs(GroupsOf(ts), j);
    assert |GroupsOf(ts)| == |ts| by { GroupsSize(ts); }
  }

  lemma GroupsSize(ts: seq<seq<Call>>)
    ensures |GroupsOf(ts)| == |ts|
  {
  }

  /** A crash after the last commit costs nothing. */
  lemma CrashAfter(lay: Layout, sb: FsDisk.Super, d: Disk, files: seq<seq<Byte>>, schedule: seq<Choice>,
                   jobs: seq<seq<Job>>, kepts: seq<seq<Job>>, ts: seq<seq<Call>>)
    requires |schedule| == |jobs| && |kepts| == |schedule| + 1 && kepts[0] == [] && NoCrash(schedule)
    requires SurvivesAt(lay, sb, d, files, schedule, jobs, kepts, |schedule|)
    requires Packed(jobs) == Packed(GroupsOf(ts)) && Idle(Execute(lay, d, schedule))
    ensures Covered(GroupsOf(ts), |kepts[|schedule|]|) == |ts|
  {
    hide RecoversTo, Execute, FirstOnes, Concat, Packed, GroupsOf;
    assert schedule[..|schedule|] == schedule;
    NoRestart(schedule);
    assert jobs[0..|schedule|] == jobs;
    PackedConcat(jobs);
    PackedConcat(GroupsOf(ts));
    GroupsSize(ts);
  }

  /** How many transactions a crash keeps, at each moment of a run. */
  lemma CrashesAlong(lay: Layout, sb: FsDisk.Super, d: Disk, files: seq<seq<Byte>>, schedule: seq<Choice>,
                     jobs: seq<seq<Job>>, ts: seq<seq<Call>>)
    returns (ks: seq<nat>)
    requires Fresh(lay, d) && Holds(sb, d, files) && lay.start + lay.size <= sb.inodestart
    requires Driven(lay, sb, d, schedule, jobs) && NoCrash(schedule) && Idle(Execute(lay, d, schedule))
    requires Packed(jobs) == Packed(GroupsOf(ts))
    ensures |ks| == |schedule| + 1 && ks[|schedule|] == |ts|
    ensures forall t: nat :: t <= |schedule| ==> KeepsFirst(lay, sb, d, files, schedule, ts, t, ks[t])
    ensures forall t :: 0 <= t < |schedule| ==> ks[t] <= ks[t + 1]
  {
    hide Holds, Fresh, KeepsFirst, SurvivesAt, Packed, GroupsOf, Covered, Idle, Execute, Driven, NoCrash;
    var kepts := FilesSurvive(lay, sb, d, files, schedule, jobs);
    var groups := GroupsOf(ts);
    ks := seq(|schedule| + 1, t requires 0 <= t <= |schedule| => Covered(groups, |kepts[t]|));
    CrashAfter(lay, sb, d, files, schedule, jobs, kepts, ts);
    forall t: nat | t <= |schedule|
      ensures KeepsFirst(lay, sb, d, files, schedule, ts, t, ks[t])
    {
      CrashAt(lay, sb, d, files, schedule, jobs, kepts, ts, t);
    }
    forall t | 0 <= t < |schedule|
      ensures ks[t] <= ks[t + 1]
    {
      CoveredMore(groups, |kepts[t]|, |kepts[t + 1]|);
    }
  }

  /**
   Any transactions that the file layer makes can be run through the log. Whenever the power fails on
   the way, and however often a recovery is cut off, the files come back as the first of these
   transactions leave them: no fewer the later it fails, and in the end all of them; then all blocks
   read as the file layer left them.
   */
  lemma TransactionsSurvive(lay: Layout, sb: FsDisk.Super, d: Disk, files: seq<seq<Byte>>, ts: seq<seq<Call>>)
    returns (schedule: seq<Choice>, ks: seq<nat>)
    requires Fresh(lay, d) && Holds(sb, d, files) && lay.start + lay.size <= sb.inodestart
    requires Made(lay, sb, d, ts)
    ensures var s := Execute(lay, d, schedule); Idle(s) && Reads(sb, s, BlocksOf(d, ts))
    ensures |ks| == |schedule| + 1 && ks[|schedule|] == |ts|
    ensures forall t: nat :: t <= |schedule| ==> KeepsFirst(lay, sb, d, files, schedule, ts, t, ks[t])
    ensures forall t :: 0 <= t < |schedule| ==> ks[t] <= ks[t + 1]
  {
    hide Holds, Made, Fresh, KeepsFirst, Reads, BlocksOf, Packed, GroupsOf, Idle, Execute, NoCrash, Driven;
    var o := Origin(lay, sb, d, [], []);
    BootShows(o);
    var m, s := TransactionsRun(o, Boot(d), d, ts);
    RunningWhenIdle(s);
    ShownIsRead(o, m, s, Packed(GroupsOf(ts)), BlocksOf(d, ts));
    schedule := m.choices;
    assert o.schedule + m.choices == m.choices && o.jobs + m.groups == m.groups;
    ks := CrashesAlong(lay, sb, d, files, schedule, m.groups, ts);
  }

  lemma RunningWhenIdle(s: State)
    requires Idle(s)
    ensures s.phase.Running?
  {
  }

  lemma BootShows(o: Origin)
    requires o.schedule == [] && o.jobs == []
    ensures At(o.lay, o.sb, o.d, [], [], Boot(o.d)) && Idle(Boot(o.d)) && Shows(o, Boot(o.d), o.d)
  {
    assert Writes([]) == [];
  }
}

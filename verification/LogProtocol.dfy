/**
 Group commit: any number of operations log blocks at the same time, the last one to end commits
 for all, and the machine may stop at any disk write.

 An operation's change of a block and its `log_write` are one step: the buffer is locked from one
 to the other. `nextOp`, `stable`, `trail` and `lost` are history variables: operation numbers
 never come again, and every logged write is committed, waiting for the commit, or lost in a crash.
 */
module LogProtocol {
  import opened Wrappers
  import opened Blocks
  import opened LogDisk

  /** An operation between its begin_op and its end_op, with the blocks it has logged so far. */
  datatype Operation = Operation(id: nat, blocks: set<nat>)

  datatype Entry = Entry(op: nat, write: Write)

  /** What the machine is doing: the first `k` of the writes `ws` of a commit or a recovery of `base` are done. */
  datatype Phase =
    | Running
    | Committing(base: Disk, ws: seq<Write>, k: nat)
    | Recovering(base: Disk, ws: seq<Write>, k: nat)

  datatype State = State(
    disk: Disk,
    phase: Phase,
    lh: seq<Uint32>,
    cache: map<nat, Block>,
    active: seq<Operation>,
    nextOp: nat,
    stable: seq<Entry>,
    trail: seq<Entry>,
    lost: seq<Entry>)

  datatype Choice =
    | BeginOp
    | LogWrite(i: nat, blockno: nat, data: Block)
    | EndOp(i: nat)
    | DiskWrite
    | Finish
    | Crash

  function Contents(s: State): seq<Block>
    requires forall i :: 0 <= i < |s.lh| ==> s.lh[i] in s.cache
  {
    seq(|s.lh|, i requires 0 <= i < |s.lh| => s.cache[s.lh[i]])
  }

  /** A block as the file system reads it: pinned in the cache, or as on disk. */
  function View(s: State, b: nat): Block
    requires b < |s.disk|
  {
    if b in s.cache then s.cache[b] else s.disk[b]
  }

  function Boot(d: Disk): State {
    State(d, Running, [], map[], [], 0, [], [], [])
  }

  // ---------------------------------------------------------------------------
  // Steps

  /** begin_op goes through; otherwise it sleeps. */
  predicate MayBegin(s: State) {
    s.phase.Running? && |s.lh| + (|s.active| + 1) * MAXOPBLOCKS <= LOGSIZE
  }

  function Begin(s: State): State {
    s.(active := s.active + [Operation(s.nextOp, {})], nextOp := s.nextOp + 1)
  }

  /** The test at the head of log_write; if it fails the kernel panics. */
  predicate GuardHolds(lay: Layout, s: State) {
    !(|s.lh| >= LOGSIZE || |s.lh| >= lay.size - 1)
  }

  /** The operation keeps within the blocks that were reserved for it. */
  predicate WithinBudget(s: State, i: nat, b: nat) {
    i < |s.active| && |s.active[i].blocks + {b}| <= MAXOPBLOCKS
  }

  predicate MayLog(lay: Layout, s: State, i: nat, b: nat) {
    s.phase.Running? && WithinBudget(s, i, b) && IsHome(lay, s.disk, b) && b < TWO32 && GuardHolds(lay, s)
  }

  function Log(s: State, i: nat, b: Uint32, data: Block): State
    requires i < |s.active|
  {
    s.(lh := Absorb(s.lh, b),
       cache := s.cache[b := data],
       active := s.active[i := s.active[i].(blocks := s.active[i].blocks + {b})],
       trail := s.trail + [Entry(s.active[i].id, Write(b, data))])
  }

  /** The state is good enough to say what a commit would write: always, as it turns out. */
  ghost predicate MayPlan(lay: Layout, s: State) {
    Fits(lay, s.disk) && |s.lh| <= LOGSIZE && forall i :: 0 <= i < |s.lh| ==> s.lh[i] in s.cache
  }

  /** The writes of a commit: none if nothing was logged. */
  ghost function Plan(lay: Layout, s: State): seq<Write>
    requires MayPlan(lay, s)
  {
    if s.lh == [] then [] else CommitWrites(lay, s.disk, s.lh, Contents(s))
  }

  ghost function End(lay: Layout, s: State, i: nat): State
    requires i < |s.active| && MayPlan(lay, s)
  {
    s.(active := s.active[..i] + s.active[i + 1..],
       phase := if |s.active| == 1 then Committing(s.disk, Plan(lay, s), 0) else s.phase)
  }

  predicate MayWrite(s: State) {
    !s.phase.Running? && s.phase.k < |s.phase.ws| && s.phase.ws[s.phase.k].blockno < |s.disk|
  }

  /** The next disk write; when it is the header of a commit, all that was logged becomes durable. */
  function WriteDisk(s: State): State
    requires MayWrite(s)
  {
    var w := s.phase.ws[s.phase.k];
    var commits := s.phase.Committing? && s.phase.k == |s.lh|;
    s.(disk := s.disk[w.blockno := w.data],
       phase := s.phase.(k := s.phase.k + 1),
       stable := if commits then s.stable + s.trail else s.stable,
       trail := if commits then [] else s.trail)
  }

  predicate MayFinish(s: State) {
    !s.phase.Running? && s.phase.k >= |s.phase.ws|
  }

  function Done(s: State): State {
    s.(phase := Running, lh := [], cache := map[])
  }

  /** Power fails: memory is gone, the disk is as it is, and recovery starts. */
  ghost function PowerFails(lay: Layout, s: State): State {
    var ws := if LogOk(lay, s.disk) then RecoveryWrites(lay, s.disk) else [];
    s.(phase := Recovering(s.disk, ws, 0), lh := [], cache := map[], active := [], trail := [],
       lost := s.lost + s.trail)
  }

  /** None: the choice is not possible in this state. */
  ghost function Step(lay: Layout, s: State, c: Choice): Option<State> {
    match c
    case BeginOp => if MayBegin(s) then Some(Begin(s)) else None
    case LogWrite(i, b, data) => if MayLog(lay, s, i, b) then Some(Log(s, i, b, data)) else None
    case EndOp(i) => if s.phase.Running? && i < |s.active| && MayPlan(lay, s) then Some(End(lay, s, i)) else None
    case DiskWrite => if MayWrite(s) then Some(WriteDisk(s)) else None
    case Finish => if MayFinish(s) then Some(Done(s)) else None
    case Crash => Some(PowerFails(lay, s))
  }

  /** The state after a schedule; a choice that is not possible is skipped. */
  ghost function Execute(lay: Layout, d: Disk, schedule: seq<Choice>): State {
    if schedule == [] then Boot(d)
    else
      var s := Execute(lay, d, schedule[..|schedule| - 1]);
      match Step(lay, s, schedule[|schedule| - 1])
      case None => s
      case Some(s') => s'
  }
}

/** Operations are atomic and durable, whatever the schedule and wherever the power fails. */
module LogAtomicity {
  import opened Wrappers
  import opened Blocks
  import opened LogDisk
  import opened LogProtocol

  function Writes(es: seq<Entry>): (ws: seq<Write>)
    ensures |ws| == |es|
  {
    seq(|es|, i requires 0 <= i < |es| => es[i].write)
  }

  ghost predicate InRange(d: Disk, es: seq<Entry>) {
    forall i :: 0 <= i < |es| ==> es[i].write.blockno < |d|
  }

  /** The disk after the logged writes `es`, one after the other. */
  ghost function After(d: Disk, es: seq<Entry>): (r: Disk)
    requires InRange(d, es)
    ensures |r| == |d|
  {
    Apply(d, Writes(es))
  }

  lemma AfterOneMore(d: Disk, es: seq<Entry>, e: Entry)
    requires InRange(d, es) && e.write.blockno < |d|
    ensures After(d, es + [e]) == After(d, es)[e.write.blockno := e.write.data]
  {
    assert Writes(es + [e]) == Writes(es) + [e.write];
    ApplyOne(d, Writes(es), e.write);
  }

  // ---------------------------------------------------------------------------
  // The reservation

  /** What the operations in progress may still log. */
  function Unspent(ops: seq<Operation>): int {
    if ops == [] then 0 else MAXOPBLOCKS - |ops[0].blocks| + Unspent(ops[1..])
  }

  lemma {:induction false} UnspentUpdate(ops: seq<Operation>, i: nat, op: Operation)
    requires i < |ops|
    ensures Unspent(ops[i := op]) == Unspent(ops) + |ops[i].blocks| - |op.blocks|
  {
    if i > 0 {
      UnspentUpdate(ops[1..], i - 1, op);
      assert ops[i := op][1..] == ops[1..][i - 1 := op];
    } else {
      assert ops[i := op][1..] == ops[1..];
    }
  }

  lemma {:induction false} UnspentAppend(ops: seq<Operation>, op: Operation)
    ensures Unspent(ops + [op]) == Unspent(ops) + MAXOPBLOCKS - |op.blocks|
  {
    if ops == [] {
      assert ops + [op] == [op];
    } else {
      UnspentAppend(ops[1..], op);
      assert (ops + [op])[1..] == ops[1..] + [op];
    }
  }

  lemma {:induction false} UnspentRemove(ops: seq<Operation>, i: nat)
    requires i < |ops|
    ensures Unspent(ops[..i] + ops[i + 1..]) == Unspent(ops) - MAXOPBLOCKS + |ops[i].blocks|
  {
    if i > 0 {
      UnspentRemove(ops[1..], i - 1);
      assert (ops[..i] + ops[i + 1..])[1..] == ops[1..][..i - 1] + ops[1..][i..];
      assert ops[1..][i..] == ops[i + 1..];
    } else {
      assert ops[..i] + ops[i + 1..] == ops[1..];
    }
  }

  lemma {:induction false} UnspentAtMost(ops: seq<Operation>)
    ensures Unspent(ops) <= |ops| * MAXOPBLOCKS
  {
    if ops != [] {
      UnspentAtMost(ops[1..]);
    }
  }

  ghost predicate OpOk(s: State, i: nat)
    requires i < |s.active|
  {
    && |s.active[i].blocks| <= MAXOPBLOCKS
    && forall b :: b in s.active[i].blocks ==> b in s.lh
  }

  /** Every operation keeps room in the log for all it may still log. */
  ghost predicate Reserved(s: State) {
    && |s.lh| + Unspent(s.active) <= LOGSIZE
    && (forall i :: 0 <= i < |s.active| ==> OpOk(s, i))
    && (!s.phase.Running? ==> s.active == [])
  }

  lemma ReservedBegin(s: State)
    requires Reserved(s) && MayBegin(s)
    ensures Reserved(Begin(s))
  {
    UnspentAppend(s.active, Operation(s.nextOp, {}));
    UnspentAtMost(s.active);
    var s' := Begin(s);
    forall i | 0 <= i < |s'.active| ensures OpOk(s', i) { if i < |s.active| { assert OpOk(s, i); } }
  }

  lemma ReservedLog(lay: Layout, s: State, i: nat, b: nat, data: Block)
    requires Reserved(s) && MayLog(lay, s, i, b)
    ensures Reserved(Log(s, i, b, data))
  {
    var s' := Log(s, i, b, data);
    UnspentUpdate(s.active, i, s'.active[i]);
    assert OpOk(s, i);
    if b in s.active[i].blocks {
      assert s.active[i].blocks + {b} == s.active[i].blocks;
    }
    forall j | 0 <= j < |s'.active| ensures OpOk(s', j) { assert OpOk(s, j); }
  }

  lemma ReservedEnd(lay: Layout, s: State, i: nat)
    requires Reserved(s) && s.phase.Running? && i < |s.active| && MayPlan(lay, s)
    ensures Reserved(End(lay, s, i))
  {
    UnspentRemove(s.active, i);
    var s' := End(lay, s, i);
    assert OpOk(s, i);
    forall j | 0 <= j < |s'.active| ensures OpOk(s', j) { assert OpOk(s, if j < i then j else j + 1); }
  }

  // ---------------------------------------------------------------------------
  // Which operation a write belongs to

  ghost predicate Mentions(es: seq<Entry>, op: nat) {
    exists i :: 0 <= i < |es| && es[i].op == op
  }

  ghost predicate IsActive(s: State, op: nat) {
    exists i :: 0 <= i < |s.active| && s.active[i].id == op
  }

  /** The writes of one operation are all committed, all waiting, or all lost. */
  ghost predicate Unsplit(s: State) {
    && (forall op: nat :: Mentions(s.stable, op) ==>
        op < s.nextOp && !Mentions(s.trail, op) && !Mentions(s.lost, op) && !IsActive(s, op))
    && (forall op: nat :: Mentions(s.lost, op) ==> op < s.nextOp && !Mentions(s.trail, op) && !IsActive(s, op))
    && (forall op: nat :: Mentions(s.trail, op) ==> op < s.nextOp)
    && (forall op: nat :: IsActive(s, op) ==> op < s.nextOp)
  }

  lemma MentionsAppend(es: seq<Entry>, more: seq<Entry>, op: nat)
    ensures Mentions(es + more, op) <==> Mentions(es, op) || Mentions(more, op)
  {
    if Mentions(es, op) {
      var i :| 0 <= i < |es| && es[i].op == op;
      assert (es + more)[i].op == op;
    }
    if Mentions(more, op) {
      var i :| 0 <= i < |more| && more[i].op == op;
      assert (es + more)[|es| + i].op == op;
    }
  }

  /**
   A step may bring in a fresh operation, move waiting writes to the committed or the lost ones, or
   log for an active one.
   */
  lemma UnsplitStep(lay: Layout, s: State, c: Choice, s': State)
    requires Unsplit(s) && Reserved(s) && Step(lay, s, c) == Some(s')
    ensures Unsplit(s')
  {
    forall op: nat
      ensures c.LogWrite? ==> (Mentions(s'.trail, op) <==> Mentions(s.trail, op) || op == s.active[c.i].id)
      ensures Mentions(s.stable + s.trail, op) <==> Mentions(s.stable, op) || Mentions(s.trail, op)
      ensures Mentions(s.lost + s.trail, op) <==> Mentions(s.lost, op) || Mentions(s.trail, op)
    {
      MentionsAppend(s.stable, s.trail, op);
      MentionsAppend(s.lost, s.trail, op);
      if c.LogWrite? {
        var e := Entry(s.active[c.i].id, Write(c.blockno, c.data));
        MentionsAppend(s.trail, [e], op);
        assert Mentions([e], op) <==> op == [e][0].op;
      }
    }
    forall op: nat
      ensures IsActive(s', op) ==> IsActive(s, op) || (c.BeginOp? && op == s.nextOp)
    {
      ActiveAfter(lay, s, c, s', op);
    }
    assert c.LogWrite? ==> s.active[c.i].id == s.active[c.i].id && IsActive(s, s.active[c.i].id);
  }

  lemma ActiveAfter(lay: Layout, s: State, c: Choice, s': State, op: nat)
    requires Step(lay, s, c) == Some(s')
    ensures IsActive(s', op) ==> IsActive(s, op) || (c.BeginOp? && op == s.nextOp)
  {
    if IsActive(s', op) {
      var i :| 0 <= i < |s'.active| && s'.active[i].id == op;
      match c {
        case BeginOp => assert i < |s.active| ==> s.active[i].id == op;
        case EndOp(j) => assert s.active[if i < j then i else i + 1].id == op;
        case Crash =>
        case _ => assert s.active[i].id == op;
      }
    }
  }

  // ---------------------------------------------------------------------------
  // What the disk and the cache hold

  /** Exactly the logged blocks are pinned in the cache, and together they make a transaction on `base`. */
  ghost predicate Pending(lay: Layout, s: State, base: Disk) {
    && (forall b: nat :: b in s.cache <==> Index(s.lh, b).Some?)
    && TransactionOk(lay, base, s.lh, Contents(s))
    && LogOk(lay, base) && HeaderN(base[lay.start]) == 0
    && (s.lh == [] ==> s.trail == [])
  }

  /** Home blocks of `d` hold the committed writes. */
  ghost predicate HoldsStable(lay: Layout, init: Disk, s: State, d: Disk)
    requires InRange(init, s.stable)
  {
    |d| == |init| && forall b: nat :: IsHome(lay, init, b) ==> d[b] == After(init, s.stable)[b]
  }

  /** The pending transaction on `base` amounts to all the writes. */
  ghost predicate HoldsAll(lay: Layout, init: Disk, s: State, base: Disk)
    requires InRange(init, s.stable + s.trail)
    requires forall i :: 0 <= i < |s.lh| ==> s.lh[i] in s.cache
  {
    && |base| == |init|
    && forall b: nat :: IsHome(lay, init, b) ==>
         Updated(base, s.lh, Contents(s), b) == After(init, s.stable + s.trail)[b]
  }

  ghost predicate RunningInv(lay: Layout, init: Disk, s: State) {
    && InRange(init, s.stable) && InRange(init, s.stable + s.trail)
    && Pending(lay, s, s.disk)
    && HoldsStable(lay, init, s, s.disk)
    && HoldsAll(lay, init, s, s.disk)
  }

  /** The writes `ws` all go to the disk, and the first `k` of them have been made. */
  ghost predicate Made(s: State, base: Disk, ws: seq<Write>, k: nat) {
    && k <= |ws| && (forall i :: 0 <= i < |ws| ==> ws[i].blockno < |base|)
    && s.disk == Apply(base, ws[..k])
  }

  ghost predicate CommittingInv(lay: Layout, init: Disk, s: State, base: Disk, ws: seq<Write>, k: nat) {
    && InRange(init, s.stable) && InRange(init, s.stable + s.trail)
    && Pending(lay, s, base)
    && (if k <= |s.lh| then HoldsStable(lay, init, s, base) else s.trail == [])
    && HoldsAll(lay, init, s, base)
    && ws == (if s.lh == [] then [] else CommitWrites(lay, base, s.lh, Contents(s)))
  }

  ghost predicate RecoveringInv(lay: Layout, init: Disk, s: State, base: Disk, ws: seq<Write>) {
    && InRange(init, s.stable) && s.trail == [] && s.lh == [] && s.cache == map[]
    && LogOk(lay, base) && |base| == |init|
    && ws == RecoveryWrites(lay, base)
    && (forall b: nat :: IsHome(lay, init, b) ==> Home(lay, base, b) == After(init, s.stable)[b])
  }

  ghost predicate DataInv(lay: Layout, init: Disk, s: State) {
    match s.phase
    case Running => RunningInv(lay, init, s)
    case Committing(base, ws, k) => CommittingInv(lay, init, s, base, ws, k) && Made(s, base, ws, k)
    case Recovering(base, ws, k) => RecoveringInv(lay, init, s, base, ws) && Made(s, base, ws, k)
  }

  lemma {:induction false} IndexAppend(blocks: seq<Uint32>, c: Uint32, b: nat)
    ensures Index(blocks + [c], b) == if b == c then Some(|blocks|) else Index(blocks, b)
  {
    assert (blocks + [c])[..|blocks|] == blocks;
  }

  /** A block of the pending transaction, read the simple way. */
  lemma UpdatedIs(lay: Layout, s: State, base: Disk, b: nat)
    requires Pending(lay, s, base) && b < |base|
    ensures Updated(base, s.lh, Contents(s), b) == if b in s.cache then s.cache[b] else base[b]
  {
  }

  lemma BeginData(lay: Layout, init: Disk, s: State, s': State)
    requires RunningInv(lay, init, s) && s' == Begin(s)
    ensures RunningInv(lay, init, s')
  {
    assert Contents(s') == Contents(s);
  }

  lemma EndData(lay: Layout, init: Disk, s: State, i: nat, s': State)
    requires RunningInv(lay, init, s) && s.phase.Running? && i < |s.active| && MayPlan(lay, s) && s' == End(lay, s, i)
    ensures DataInv(lay, init, s')
  {
    assert Contents(s') == Contents(s);
    CommitInRange(lay, s.disk, s.lh, Contents(s));
    assert Plan(lay, s)[..0] == [];
  }

  lemma LogData(lay: Layout, init: Disk, s: State, i: nat, b: Uint32, data: Block, s': State)
    requires RunningInv(lay, init, s) && MayLog(lay, s, i, b) && s' == Log(s, i, b, data)
    ensures RunningInv(lay, init, s')
  {
    forall c: nat ensures c in s'.cache <==> Index(s'.lh, c).Some? { IndexAppend(s.lh, b, c); }
    LogPending(lay, s, i, b, data, s');
    var e := Entry(s.active[i].id, Write(b, data));
    assert s'.stable + s'.trail == s.stable + s.trail + [e];
    AfterOneMore(init, s.stable + s.trail, e);
    forall c: nat | IsHome(lay, init, c)
      ensures Updated(s.disk, s'.lh, Contents(s'), c) == After(init, s'.stable + s'.trail)[c]
    {
      UpdatedIs(lay, s, s.disk, c);
      UpdatedIs(lay, s', s.disk, c);
    }
  }

  lemma LogPending(lay: Layout, s: State, i: nat, b: Uint32, data: Block, s': State)
    requires Pending(lay, s, s.disk) && MayLog(lay, s, i, b) && s' == Log(s, i, b, data)
    requires forall c: nat :: c in s'.cache <==> Index(s'.lh, c).Some?
    ensures Pending(lay, s', s.disk)
  {
    LoggedInCache(s');
    NumbersGrow(s.lh, b);
  }

  lemma LoggedInCache(s: State)
    requires forall c: nat :: c in s.cache <==> Index(s.lh, c).Some?
    ensures forall j :: 0 <= j < |s.lh| ==> s.lh[j] in s.cache
  {
    assert forall j :: 0 <= j < |s.lh| ==> Index(s.lh, s.lh[j]).Some?;
  }

  /** Absorption: a block never gets into the log twice. */
  lemma NumbersGrow(lh: seq<Uint32>, b: Uint32)
    requires forall x, y :: 0 <= x < y < |lh| ==> lh[x] != lh[y]
    ensures var lh' := Absorb(lh, b);
            forall x, y :: 0 <= x < y < |lh'| ==> lh'[x] != lh'[y]
  {
  }

  lemma CrashData(lay: Layout, init: Disk, s: State, s': State)
    requires DataInv(lay, init, s) && s' == PowerFails(lay, s)
    ensures DataInv(lay, init, s')
  {
    Durable(lay, init, s);
    assert RecoveryWrites(lay, s.disk)[..0] == [];
  }

  /** Whatever the machine is doing, a recovery of its disk gives the committed writes. */
  lemma Durable(lay: Layout, init: Disk, s: State)
    requires DataInv(lay, init, s)
    ensures LogOk(lay, s.disk) && |s.disk| == |init| && InRange(init, s.stable)
    ensures forall b: nat :: IsHome(lay, init, b) ==> Home(lay, s.disk, b) == After(init, s.stable)[b]
  {
    match s.phase {
      case Running => EmptyHeader(lay, s.disk);
      case Committing(base, ws, k) =>
        if s.lh == [] {
          assert ws[..k] == [];
          EmptyHeader(lay, base);
        } else {
          CommitPrefix(lay, base, s.lh, Contents(s), k);
        }
        assert s.trail == [] ==> s.stable + s.trail == s.stable;
      case Recovering(base, ws, k) =>
        RecoveryPrefix(lay, base, k);
    }
  }

  lemma OneMoreMade(s: State, base: Disk, ws: seq<Write>, k: nat, s': State)
    requires Made(s, base, ws, k) && k < |ws| && |s.disk| == |base|
    requires s'.disk == s.disk[ws[k].blockno := ws[k].data]
    ensures Made(s', base, ws, k + 1)
  {
    assert ws[..k + 1] == ws[..k] + [ws[k]];
    ApplyOne(base, ws[..k], ws[k]);
  }

  /** The header makes the waiting writes the committed ones; the other writes of a commit move nothing. */
  lemma CommitWriteData(lay: Layout, init: Disk, s: State, base: Disk, ws: seq<Write>, k: nat, s': State)
    requires CommittingInv(lay, init, s, base, ws, k)
    requires s'.lh == s.lh && s'.cache == s.cache
    requires s'.stable == (if k == |s.lh| then s.stable + s.trail else s.stable)
    requires s'.trail == (if k == |s.lh| then [] else s.trail)
    ensures CommittingInv(lay, init, s', base, ws, k + 1)
  {
    assert Contents(s') == Contents(s);
    assert s'.stable + s'.trail == s.stable + s.trail;
  }

  lemma RecoverWriteData(lay: Layout, init: Disk, s: State, base: Disk, ws: seq<Write>, s': State)
    requires RecoveringInv(lay, init, s, base, ws) && s'.lh == s.lh && s'.cache == s.cache && s'.stable == s.stable &&
             s'.trail == s.trail
    ensures RecoveringInv(lay, init, s', base, ws)
  {
  }

  lemma MadeOn(s: State)
    requires !s.phase.Running? && Made(s, s.phase.base, s.phase.ws, s.phase.k)
    ensures |s.disk| == |s.phase.base|
  {
  }

  lemma WriteData(lay: Layout, init: Disk, s: State, s': State)
    requires DataInv(lay, init, s) && MayWrite(s) && s' == WriteDisk(s)
    ensures DataInv(lay, init, s')
  {
    hide CommittingInv, RecoveringInv, RunningInv, Made, Apply;
    MadeOn(s);
    OneMoreMade(s, s.phase.base, s.phase.ws, s.phase.k, s');
    if s.phase.Recovering? {
      RecoverWriteData(lay, init, s, s.phase.base, s.phase.ws, s');
    }
    if s.phase.Committing? {
      CommitWriteData(lay, init, s, s.phase.base, s.phase.ws, s.phase.k, s');
    }
  }

  lemma DoneData(lay: Layout, init: Disk, s: State, s': State)
    requires DataInv(lay, init, s) && MayFinish(s) && s' == Done(s)
    ensures DataInv(lay, init, s')
  {
    NothingWaits(lay, init, s);
    AllInstalled(lay, init, s);
    Durable(lay, init, s);
    assert s.stable + s.trail == s.stable;
    EmptyHeader(lay, s.disk);
  }

  lemma NothingWaits(lay: Layout, init: Disk, s: State)
    requires DataInv(lay, init, s) && MayFinish(s)
    ensures s.trail == []
  {
  }

  lemma AllInstalled(lay: Layout, init: Disk, s: State)
    requires DataInv(lay, init, s) && MayFinish(s)
    ensures LogOk(lay, s.disk) && HeaderN(s.disk[lay.start]) == 0
  {
    match s.phase {
      case Committing(base, ws, k) =>
        if s.lh == [] {
          assert ws[..k] == [];
        } else {
          CommitPrefix(lay, base, s.lh, Contents(s), k);
        }
      case Recovering(base, ws, k) => RecoveryPrefix(lay, base, k);
    }
  }

  /** With an empty log the home blocks are as they are on disk. */
  lemma EmptyHeader(lay: Layout, d: Disk)
    requires LogOk(lay, d)
    ensures HeaderN(d[lay.start]) == 0 ==> forall b: nat :: b < |d| ==> Home(lay, d, b) == d[b]
  {
  }

  // ---------------------------------------------------------------------------
  // Runs

  lemma DataStep(lay: Layout, init: Disk, s: State, c: Choice, s': State)
    requires DataInv(lay, init, s) && Step(lay, s, c) == Some(s')
    ensures DataInv(lay, init, s')
  {
    match c {
      case BeginOp => BeginData(lay, init, s, s');
      case LogWrite(i, b, data) => LogData(lay, init, s, i, b, data, s');
      case EndOp(i) => EndData(lay, init, s, i, s');
      case DiskWrite => WriteData(lay, init, s, s');
      case Finish => DoneData(lay, init, s, s');
      case Crash => CrashData(lay, init, s, s');
    }
  }

  lemma ReservedStep(lay: Layout, s: State, c: Choice, s': State)
    requires Reserved(s) && Step(lay, s, c) == Some(s')
    ensures Reserved(s')
  {
    match c {
      case BeginOp => ReservedBegin(s);
      case LogWrite(i, b, data) => ReservedLog(lay, s, i, b, data);
      case EndOp(i) => ReservedEnd(lay, s, i);
      case _ =>
    }
  }

  ghost predicate Inv(lay: Layout, init: Disk, s: State) {
    Reserved(s) && Unsplit(s) && DataInv(lay, init, s)
  }

  /** A file system as it was made: an empty log. */
  ghost predicate Fresh(lay: Layout, d: Disk) {
    LogOk(lay, d) && HeaderN(d[lay.start]) == 0
  }

  lemma {:induction false} Reachable(lay: Layout, d: Disk, schedule: seq<Choice>)
    requires Fresh(lay, d)
    ensures Inv(lay, d, Execute(lay, d, schedule))
  {
    if schedule == [] {
      EmptyHeader(lay, d);
    } else {
      var s := Execute(lay, d, schedule[..|schedule| - 1]);
      var c := schedule[|schedule| - 1];
      Reachable(lay, d, schedule[..|schedule| - 1]);
      if Step(lay, s, c).Some? {
        var s' := Step(lay, s, c).value;
        ReservedStep(lay, s, c, s');
        UnsplitStep(lay, s, c, s');
        DataStep(lay, d, s, c, s');
      }
    }
  }

  /**
   The main result. At any moment the power may fail, and any number of recoveries may be cut off.
   The recovery that ends leaves on every home block exactly the committed writes; each operation is
   in them with all its writes or with none; and those of an operation still running are not in them.
   */
  lemma OperationsAtomic(lay: Layout, d: Disk, schedule: seq<Choice>, cuts: seq<nat>)
    requires Fresh(lay, d)
    ensures var s := Execute(lay, d, schedule);
            && InRange(d, s.stable) && LogOk(lay, s.disk) && |s.disk| == |d|
            && (forall b: nat :: IsHome(lay, d, b) ==>
                  Recovered(lay, Crashed(lay, s.disk, cuts))[b] == After(d, s.stable)[b])
            && (forall op: nat :: Mentions(s.stable, op) ==>
                  !Mentions(s.trail, op) && !Mentions(s.lost, op) && !IsActive(s, op))
  {
    Reachable(lay, d, schedule);
    var s := Execute(lay, d, schedule);
    Durable(lay, d, s);
    CrashesKeepHome(lay, s.disk, cuts);
    assert forall b: nat :: IsHome(lay, d, b) ==> IsHome(lay, s.disk, b);
  }

  /** Operations see every write logged so far, committed or not. */
  lemma ReadsSeeAllWrites(lay: Layout, d: Disk, schedule: seq<Choice>, b: nat)
    requires Fresh(lay, d) && IsHome(lay, d, b)
    ensures var s := Execute(lay, d, schedule);
            |s.disk| == |d| && InRange(d, s.stable + s.trail) &&
            (s.phase.Running? ==> View(s, b) == After(d, s.stable + s.trail)[b])
  {
    Reachable(lay, d, schedule);
    var s := Execute(lay, d, schedule);
    Durable(lay, d, s);
    if s.phase.Running? {
      UpdatedIs(lay, s, s.disk, b);
    }
    if s.phase.Recovering? {
      assert s.stable + s.trail == s.stable;
    }
  }

  /** Home blocks on disk hold only committed writes as long as the header of a commit is not written. */
  lemma NothingLeaksEarly(lay: Layout, d: Disk, schedule: seq<Choice>, b: nat)
    requires Fresh(lay, d) && IsHome(lay, d, b)
    ensures var s := Execute(lay, d, schedule);
            |s.disk| == |d| && InRange(d, s.stable) &&
            (s.phase.Running? || (s.phase.Committing? && s.phase.k <= |s.lh|) ==> s.disk[b] == After(d, s.stable)[b])
  {
    Reachable(lay, d, schedule);
    var s := Execute(lay, d, schedule);
    Durable(lay, d, s);
    if s.phase.Running? {
      EmptyHeader(lay, s.disk);
    } else if s.phase.Committing? && s.phase.k <= |s.lh| {
      LogOnly(lay, d, s, b);
    }
  }

  lemma LogOnly(lay: Layout, init: Disk, s: State, b: nat)
    requires DataInv(lay, init, s) && IsHome(lay, init, b) && s.phase.Committing? && s.phase.k <= |s.lh|
    ensures |s.disk| == |init| && s.disk[b] == s.phase.base[b] == After(init, s.stable)[b]
  {
    hide Apply, CommitWrites, LogWrites, Word, FirstNumbers;
    var base, ws, k := s.phase.base, s.phase.ws, s.phase.k;
    if s.lh == [] {
      assert ws[..k] == [];
      ApplyNone(base);
    } else {
      CommitStart(lay, base, s.lh, Contents(s), k);
      AfterLogWrites(lay, base, Contents(s), k, b);
    }
  }

  /** The log never overflows, and no operation runs while a commit or a recovery does. */
  lemma LogNeverOverflows(lay: Layout, d: Disk, schedule: seq<Choice>)
    requires Fresh(lay, d)
    ensures var s := Execute(lay, d, schedule);
            && |s.lh| + Unspent(s.active) <= LOGSIZE
            && |s.lh| <= Capacity(lay)
            && (!s.phase.Running? ==> s.active == [])
  {
    Reachable(lay, d, schedule);
  }

  /** Commits are for ever: what is committed stays, in order, through any later schedule. */
  lemma {:induction false} CommittedStays(lay: Layout, d: Disk, earlier: seq<Choice>, more: seq<Choice>)
    ensures Execute(lay, d, earlier).stable <= Execute(lay, d, earlier + more).stable
  {
    if more == [] {
      assert earlier + more == earlier;
    } else {
      CommittedStays(lay, d, earlier, more[..|more| - 1]);
      assert (earlier + more)[..|earlier + more| - 1] == earlier + more[..|more| - 1];
    }
  }

  lemma StepKeepsLogged(lay: Layout, s: State, c: Choice, s': State)
    requires Step(lay, s, c) == Some(s') && !c.Crash?
    ensures s.stable + s.trail <= s'.stable + s'.trail
  {
  }

  /** Without a crash nothing that was logged is lost. */
  lemma {:induction false} LoggedStays(lay: Layout, d: Disk, earlier: seq<Choice>, more: seq<Choice>)
    requires forall i :: 0 <= i < |more| ==> !more[i].Crash?
    ensures var s, s' := Execute(lay, d, earlier), Execute(lay, d, earlier + more);
            s.stable + s.trail <= s'.stable + s'.trail
  {
    hide Step;
    if more == [] {
      assert earlier + more == earlier;
    } else {
      var init := more[..|more| - 1];
      LoggedStays(lay, d, earlier, init);
      assert (earlier + more)[..|earlier + more| - 1] == earlier + init;
      var s := Execute(lay, d, earlier + init);
      if Step(lay, s, more[|more| - 1]).Some? {
        StepKeepsLogged(lay, s, more[|more| - 1], Step(lay, s, more[|more| - 1]).value);
      }
    }
  }

  /** Durability: when a commit has made its last write, everything that was logged before is committed. */
  lemma Durability(lay: Layout, d: Disk, earlier: seq<Choice>, more: seq<Choice>)
    requires Fresh(lay, d) && forall i :: 0 <= i < |more| ==> !more[i].Crash?
    requires MayFinish(Execute(lay, d, earlier + more))
    ensures var s := Execute(lay, d, earlier); s.stable + s.trail <= Execute(lay, d, earlier + more).stable
  {
    Reachable(lay, d, earlier + more);
    NothingWaits(lay, d, Execute(lay, d, earlier + more));
    LoggedStays(lay, d, earlier, more);
  }

  // ---------------------------------------------------------------------------
  // The test at the head of log_write

  lemma {:induction false} UnspentIncludes(ops: seq<Operation>, i: nat)
    requires i < |ops| && forall j :: 0 <= j < |ops| ==> |ops[j].blocks| <= MAXOPBLOCKS
    ensures Unspent(ops) >= MAXOPBLOCKS - |ops[i].blocks|
    ensures Unspent(ops) >= 0
  {
    if |ops| > 1 {
      UnspentIncludes(ops[1..], if i > 0 then i - 1 else 0);
    }
  }

  /**
   When the kernel panics on a `log_write` that is within the operation's reservation: exactly when
   the log is full. If the log area has room for LOGSIZE blocks and the header, that can only
   happen to a block that is already in the log.
   */
  lemma GuardRefuses(lay: Layout, d: Disk, schedule: seq<Choice>, i: nat, b: nat)
    requires Fresh(lay, d)
    requires var s := Execute(lay, d, schedule); s.phase.Running? && WithinBudget(s, i, b)
    ensures var s := Execute(lay, d, schedule);
            && (!GuardHolds(lay, s) <==> |s.lh| == Capacity(lay))
            && (!GuardHolds(lay, s) && lay.size > LOGSIZE ==> b in s.lh)
  {
    Reachable(lay, d, schedule);
    var s := Execute(lay, d, schedule);
    assert OpOk(s, i);
    forall j | 0 <= j < |s.active|
      ensures |s.active[j].blocks| <= MAXOPBLOCKS
    {
      assert OpOk(s, j);
    }
    UnspentIncludes(s.active, i);
    OneMore(s.active[i].blocks, b);
  }

  lemma OneMore(blocks: set<nat>, b: nat)
    ensures b !in blocks ==> |blocks + {b}| == |blocks| + 1
  {
    if b !in blocks {
      assert blocks + {b} - {b} == blocks;
    }
  }

  /** The layout that mkfs makes: the log starts at block 2 and is LOGSIZE blocks long. */
  const MKFS_LAYOUT := Layout(2, LOGSIZE)

  /** The numbers from `lo` up to, but not including, `hi`. */
  function Between(lo: nat, hi: nat): set<nat> {
    if hi <= lo then {} else Between(lo, hi - 1) + {hi - 1}
  }

  /** What operation `x` has logged after `n` writes. */
  function FilledBlocks(f: nat, x: nat, n: nat): set<nat> {
    Between(f + 10 * x, if n <= 10 * x then f + 10 * x else if n >= 10 * x + 10 then f + 10 * x + 10 else f + n)
  }

  /** Three operations have begun, and have logged the blocks f, f + 1, ... ten each. */
  ghost predicate Filled(s: State, f: nat, n: nat) {
    && n <= LOGSIZE
    && s.phase.Running?
    && |s.lh| == n && (forall j :: 0 <= j < n ==> s.lh[j] == f + j)
    && |s.active| == 3
    && (forall x :: 0 <= x < 3 ==> s.active[x].blocks == FilledBlocks(f, x, n))
  }

  function FillSchedule(f: nat, n: nat, data: Block): seq<Choice> {
    if n == 0 then [BeginOp, BeginOp, BeginOp]
    else FillSchedule(f, n - 1, data) + [LogWrite((n - 1) / 10, f + n - 1, data)]
  }

  lemma {:induction false} BetweenSize(lo: nat, hi: nat)
    requires lo <= hi
    ensures |Between(lo, hi)| == hi - lo
    ensures forall b: nat :: b in Between(lo, hi) ==> lo <= b < hi
  {
    if lo < hi {
      BetweenSize(lo, hi - 1);
    }
  }

  lemma {:induction false} NotLogged(lh: seq<Uint32>, b: nat)
    requires forall j :: 0 <= j < |lh| ==> lh[j] != b
    ensures Index(lh, b).None?
  {
  }

  /** There are home blocks enough right after the log area. */
  predicate Spacious(lay: Layout, n: nat) {
    lay.size > 1 && lay.start + lay.size + LOGSIZE <= n && lay.start + lay.size + LOGSIZE <= TWO32
  }

  lemma FillStep(lay: Layout, s: State, f: nat, n: nat, data: Block)
    requires Filled(s, f, n) && n < Capacity(lay) && Spacious(lay, |s.disk|) && f == lay.start + lay.size
    ensures MayLog(lay, s, n / 10, f + n)
    ensures Filled(Log(s, n / 10, f + n, data), f, n + 1) && Log(s, n / 10, f + n, data).disk == s.disk
  {
    NotLogged(s.lh, f + n);
    NextOf(s, f, n);
    var s' := Log(s, n / 10, f + n, data);
    forall x | 0 <= x < 3
      ensures s'.active[x].blocks == FilledBlocks(f, x, n + 1)
    {
      assert s.active[x].blocks == FilledBlocks(f, x, n);
    }
  }

  lemma NextOf(s: State, f: nat, n: nat)
    requires Filled(s, f, n) && n < LOGSIZE
    ensures s.active[n / 10].blocks + {f + n} == FilledBlocks(f, n / 10, n + 1)
    ensures WithinBudget(s, n / 10, f + n)
  {
    hide FilledBlocks;
    FilledMore(f, n / 10, n);
  }

  lemma FilledMore(f: nat, x: nat, n: nat)
    requires 10 * x <= n < 10 * x + 10
    ensures FilledBlocks(f, x, n) + {f + n} == FilledBlocks(f, x, n + 1)
    ensures |FilledBlocks(f, x, n + 1)| <= MAXOPBLOCKS
  {
    assert FilledBlocks(f, x, n + 1) == Between(f + 10 * x, f + n + 1);
    assert FilledBlocks(f, x, n) == Between(f + 10 * x, f + n);
    BetweenSize(f + 10 * x, f + n + 1);
  }

  lemma {:induction false} Fill(lay: Layout, d: Disk, f: nat, n: nat, data: Block)
    requires Spacious(lay, |d|) && f == lay.start + lay.size && n <= Capacity(lay)
    ensures Filled(Execute(lay, d, FillSchedule(f, n, data)), f, n)
    ensures |Execute(lay, d, FillSchedule(f, n, data)).disk| == |d|
  {
    hide Filled, Log, MayLog, MayPlan, PowerFails, WriteDisk, Done, End, Begin, MayBegin, MayWrite, MayFinish;
    if n == 0 {
      FillBegin(lay, d, f);
    } else {
      Fill(lay, d, f, n - 1, data);
      assert FillSchedule(f, n, data)[..|FillSchedule(f, n, data)| - 1] == FillSchedule(f, n - 1, data);
      FillStep(lay, Execute(lay, d, FillSchedule(f, n - 1, data)), f, n - 1, data);
    }
  }

  lemma FillBegin(lay: Layout, d: Disk, f: nat)
    ensures Filled(Execute(lay, d, [BeginOp, BeginOp, BeginOp]), f, 0)
    ensures Execute(lay, d, [BeginOp, BeginOp, BeginOp]).disk == d
  {
    var s0 := Execute(lay, d, []);
    assert [BeginOp][..0] == [];
    var s1 := Execute(lay, d, [BeginOp]);
    assert s1 == Begin(s0);
    assert [BeginOp, BeginOp][..1] == [BeginOp];
    var s2 := Execute(lay, d, [BeginOp, BeginOp]);
    assert s2 == Begin(s1);
    assert [BeginOp, BeginOp, BeginOp][..2] == [BeginOp, BeginOp];
  }

  lemma FilledRefuses(lay: Layout, s: State, f: nat, n: nat)
    requires Filled(s, f, n) && n == Capacity(lay) && n < LOGSIZE && f == lay.start + lay.size
    ensures WithinBudget(s, n / 10, f + n) && !(f + n in s.lh) && !GuardHolds(lay, s)
  {
    NextOf(s, f, n);
  }

  /** After this schedule the kernel panics on a new block that is within the reservation of its operation. */
  ghost predicate RefusedAfter(lay: Layout, d: Disk, schedule: seq<Choice>, i: nat, b: nat) {
    var s := Execute(lay, d, schedule);
    s.phase.Running? && WithinBudget(s, i, b) && IsHome(lay, s.disk, b) && !(b in s.lh) && !GuardHolds(lay, s)
  }

  /** Such a schedule exists exactly if the log area, header included, is not larger than LOGSIZE. */
  lemma ReservationSuffices(lay: Layout, d: Disk)
    requires Fresh(lay, d) && Spacious(lay, |d|)
    ensures (exists schedule: seq<Choice>, i: nat, b: nat :: RefusedAfter(lay, d, schedule, i, b)) <==>
              lay.size <= LOGSIZE
  {
    if lay.size <= LOGSIZE {
      var f, n := lay.start + lay.size, Capacity(lay);
      Fill(lay, d, f, n, ZERO_BLOCK);
      FilledRefuses(lay, Execute(lay, d, FillSchedule(f, n, ZERO_BLOCK)), f, n);
      assert RefusedAfter(lay, d, FillSchedule(f, n, ZERO_BLOCK), n / 10, f + n);
    }
    forall schedule: seq<Choice>, i: nat, b: nat | RefusedAfter(lay, d, schedule, i, b)
      ensures lay.size <= LOGSIZE
    {
      GuardRefuses(lay, d, schedule, i, b);
    }
  }

  /**
   With the layout of mkfs the reservation is not enough: three operations, each within its ten
   blocks, bring the log to the point where the thirtieth block makes the kernel panic.
   */
  lemma GuardStricterThanReservation(d: Disk, data: Block)
    requires |d| >= 62
    ensures RefusedAfter(MKFS_LAYOUT, d, FillSchedule(32, 29, data), 2, 61)
  {
    Fill(MKFS_LAYOUT, d, 32, 29, data);
    FilledRefuses(MKFS_LAYOUT, Execute(MKFS_LAYOUT, d, FillSchedule(32, 29, data)), 32, 29);
  }

  /** Some schedule logs `n` blocks exactly if the log area has room for them. */
  lemma LogFills(lay: Layout, d: Disk, n: nat)
    requires Fresh(lay, d) && Spacious(lay, |d|)
    ensures (exists schedule: seq<Choice> :: |Execute(lay, d, schedule).lh| >= n) <==> n <= Capacity(lay)
  {
    if n <= Capacity(lay) {
      var f := lay.start + lay.size;
      Fill(lay, d, f, n, ZERO_BLOCK);
      assert |Execute(lay, d, FillSchedule(f, n, ZERO_BLOCK)).lh| >= n;
    }
    forall schedule: seq<Choice>
      ensures |Execute(lay, d, schedule).lh| <= Capacity(lay)
    {
      LogNeverOverflows(lay, d, schedule);
    }
  }
}

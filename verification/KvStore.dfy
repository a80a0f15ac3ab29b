/**
 The chained hash table of the key-value server.

 `put` locks its bucket; `get` takes no lock. A run is any schedule of single memory accesses of
 any number of threads, under sequential consistency. Nodes are numbered in the order in which
 they are published; a node is private to its thread before that.
 */
module KvStore {
  import opened Wrappers
  import opened Linearizability

  type Pointer = Option<nat>

  datatype Node = Node(k: Uint32, v: Uint32, next: Pointer)

  datatype Op = Put(k: Uint32, v: Uint32) | Get(k: Uint32)

  datatype Result = Done | Value(v: Uint32)

  /** The program counter and the local variables of a thread. */
  datatype Local =
    | Outside
    | PutLock(k: Uint32, v: Uint32)
    | PutHead(k: Uint32, v: Uint32)
    | PutCheck(k: Uint32, v: Uint32, node: Pointer)
    | PutStore(k: Uint32, v: Uint32, at: nat)
    | PutNext(k: Uint32, v: Uint32, at: nat)
    | PutMiss(k: Uint32, v: Uint32)
    | PutPublish(k: Uint32, v: Uint32, next: Pointer)
    | PutUnlock(k: Uint32)
    | PutReturn
    | GetHead(k: Uint32)
    | GetCheck(k: Uint32, node: Pointer)
    | GetLoad(k: Uint32, at: nat)
    | GetNext(k: Uint32, at: nat)
    | GetReturn(output: Uint32)

  datatype Table = Table(
    heads: seq<Pointer>,
    locks: seq<Option<nat>>,
    heap: seq<Node>,
    threads: seq<Local>)

  /** What the scheduler can pick: a thread calls an operation, or goes on with its own. */
  datatype Choice = Start(tid: nat, op: Op) | Advance(tid: nat)

  function Bucket(k: Uint32, size: nat): nat
    requires size > 0
  {
    k % size
  }

  function InitKvStore(size: nat, n: nat): Table {
    Table(seq(size, _ => None), seq(size, _ => None), [], seq(n, _ => Outside))
  }

  // ---------------------------------------------------------------------------
  // The steps. None: the thread cannot move (it waits for a lock, or the choice makes no sense).

  function Move(s: Table, t: nat, l: Local): Table
    requires t < |s.threads|
  {
    s.(threads := s.threads[t := l])
  }

  function Step(s: Table, c: Choice): (r: Option<(Table, seq<Event<Op, Result>>)>)
    requires Shape(s)
    ensures r.Some? ==> Shape(r.value.0) && SameSizes(s, r.value.0)
  {
    if c.tid >= |s.threads| then None
    else
      match c
      case Start(t, op) =>
        if s.threads[t] != Outside then None
        else
          var l := match op case Put(k, v) => PutLock(k, v) case Get(k) => GetHead(k);
          Some((Move(s, t, l), [Call(t, op)]))
      case Advance(t) => Access(s, t)
  }

  /** One memory access of thread `t`. */
  function Access(s: Table, t: nat): (r: Option<(Table, seq<Event<Op, Result>>)>)
    requires Shape(s) && t < |s.threads|
    ensures r.Some? ==> Shape(r.value.0) && SameSizes(s, r.value.0)
  {
    var size := |s.heads|;
    assert LocalShape(s.threads[t], |s.heap|);
    match s.threads[t]
    case Outside => None
    case PutLock(k, v) =>
      if s.locks[Bucket(k, size)].Some? then None
      else Some((Move(s, t, PutHead(k, v)).(locks := s.locks[Bucket(k, size) := Some(t)]), []))
    case PutStore(k, v, at) =>
      Some((Move(s, t, PutUnlock(k)).(heap := s.heap[at := s.heap[at].(v := v)]), []))
    case PutPublish(k, v, next) =>
      Some((Move(s, t, PutUnlock(k)).(
              heap := s.heap + [Node(k, v, next)],
              heads := s.heads[Bucket(k, size) := Some(|s.heap|)]), []))
    case PutUnlock(k) => Some((Move(s, t, PutReturn).(locks := s.locks[Bucket(k, size) := None]), []))
    case PutReturn => Some((Move(s, t, Outside), [Return(t, Done)]))
    case GetReturn(output) => Some((Move(s, t, Outside), [Return(t, Value(output))]))
    case _ => Some((Move(s, t, Read(s, t)), []))
  }

  /** The accesses that only read shared memory: where they take the thread. */
  function Read(s: Table, t: nat): (l: Local)
    requires Shape(s) && t < |s.threads|
    ensures LocalShape(l, |s.heap|)
  {
    var size := |s.heads|;
    assert LocalShape(s.threads[t], |s.heap|);
    match s.threads[t]
    case PutHead(k, v) => PutCheck(k, v, s.heads[Bucket(k, size)])
    case PutCheck(k, v, node) =>
      if node.None? then PutMiss(k, v)
      else if s.heap[node.value].k == k then PutStore(k, v, node.value)
      else PutNext(k, v, node.value)
    case PutNext(k, v, at) => PutCheck(k, v, s.heap[at].next)
    case PutMiss(k, v) => PutPublish(k, v, s.heads[Bucket(k, size)])
    case GetHead(k) => GetCheck(k, s.heads[Bucket(k, size)])
    case GetCheck(k, node) =>
      if node.None? then GetReturn(0)
      else if s.heap[node.value].k == k then GetLoad(k, node.value)
      else GetNext(k, node.value)
    case GetLoad(k, at) => GetReturn(s.heap[at].v)
    case GetNext(k, at) => GetCheck(k, s.heap[at].next)
    case l => l
  }

  /** All pointers point to nodes: what a step needs to make sense at all. */
  ghost predicate Shape(s: Table) {
    && |s.heads| == |s.locks| > 0
    && (forall b :: 0 <= b < |s.heads| ==> Below(s.heads[b], |s.heap|))
    && (forall i :: 0 <= i < |s.heap| ==> Below(s.heap[i].next, i))
    && (forall t :: 0 <= t < |s.threads| ==> LocalShape(s.threads[t], |s.heap|))
  }

  predicate SameSizes(s: Table, s': Table) {
    |s'.heads| == |s.heads| && |s'.threads| == |s.threads|
  }

  predicate Below(p: Pointer, n: nat) { p.Some? ==> p.value < n }

  predicate LocalShape(l: Local, n: nat) {
    match l
    case PutCheck(_, _, node) => Below(node, n)
    case PutStore(_, _, at) => at < n
    case PutNext(_, _, at) => at < n
    case PutPublish(_, _, next) => Below(next, n)
    case GetCheck(_, node) => Below(node, n)
    case GetLoad(_, at) => at < n
    case GetNext(_, at) => at < n
    case _ => true
  }

  /** The state after a schedule; a choice that cannot move is skipped. */
  ghost function Execute(size: nat, n: nat, schedule: seq<Choice>): (r: (Table, seq<Event<Op, Result>>))
    requires size > 0
    ensures Shape(r.0) && |r.0.heads| == size && |r.0.threads| == n
  {
    if schedule == [] then (InitKvStore(size, n), [])
    else
      var (s, h) := Execute(size, n, schedule[..|schedule| - 1]);
      match Step(s, schedule[|schedule| - 1])
      case None => (s, h)
      case Some((s', es)) => (s', h + es)
  }
}

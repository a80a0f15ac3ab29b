/**
 The hash table is a linearizable map with default 0.

 A `put` takes effect when it stores the value or publishes the node. A `get` that finds its key
 takes effect when it loads the value, and one that does not find it when it loads the head of the
 bucket: nodes are only ever added in front of that head.
 */
module KvLinearizable {
  import opened Wrappers
  import opened Linearizability
  import opened KvStore

  /** The sequential object: a map in which absent keys read as 0. */
  function Apply(m: map<Uint32, Uint32>, op: Op): Option<(map<Uint32, Uint32>, Result)> {
    match op
    case Put(k, v) => Some((m[k := v], Done))
    case Get(k) => Some((m, Value(if k in m then m[k] else 0)))
  }

  const MapObject: Object<map<Uint32, Uint32>, Op, Result> := Object(map[], Apply)

  // ---------------------------------------------------------------------------
  // Chains

  ghost predicate HeapShape(heap: seq<Node>) {
    forall i :: 0 <= i < |heap| ==> Below(heap[i].next, i)
  }

  /** The first node of the chain that holds key `k`. */
  ghost function Find(heap: seq<Node>, p: Pointer, k: Uint32): (r: Pointer)
    requires HeapShape(heap) && Below(p, |heap|)
    ensures r.Some? ==> p.Some? && r.value <= p.value && heap[r.value].k == k
    decreases if p.Some? then p.value + 1 else 0
  {
    if p.None? then None
    else if heap[p.value].k == k then p
    else Find(heap, heap[p.value].next, k)
  }

  /** Every node of the chain belongs in bucket `b`, and no key comes twice. */
  ghost predicate ChainOk(heap: seq<Node>, p: Pointer, b: nat, size: nat)
    requires HeapShape(heap) && Below(p, |heap|) && size > 0
    decreases if p.Some? then p.value + 1 else 0
  {
    p.Some? ==>
      var node := heap[p.value];
      Bucket(node.k, size) == b && Find(heap, node.next, node.k).None? && ChainOk(heap, node.next, b, size)
  }

  /** Walking from `h` comes past `p`. */
  ghost predicate OnChain(heap: seq<Node>, h: Pointer, p: Pointer)
    requires HeapShape(heap) && Below(h, |heap|)
    decreases if h.Some? then h.value + 1 else 0
  {
    h == p || (h.Some? && OnChain(heap, heap[h.value].next, p))
  }

  lemma {:induction false} FindFromMiddle(heap: seq<Node>, h: Pointer, p: Pointer, b: nat, size: nat, k: Uint32)
    requires HeapShape(heap) && Below(h, |heap|) && Below(p, |heap|) && size > 0
    requires OnChain(heap, h, p) && ChainOk(heap, h, b, size)
    ensures ChainOk(heap, p, b, size)
    ensures Find(heap, p, k).Some? ==> Find(heap, h, k) == Find(heap, p, k)
    decreases if h.Some? then h.value + 1 else 0
  {
    if h != p {
      FindFromMiddle(heap, heap[h.value].next, p, b, size, k);
    }
  }

  lemma {:induction false} OnChainStep(heap: seq<Node>, h: Pointer, p: nat)
    requires HeapShape(heap) && Below(h, |heap|) && p < |heap|
    requires OnChain(heap, h, Some(p))
    ensures OnChain(heap, h, heap[p].next)
    decreases if h.Some? then h.value + 1 else 0
  {
    if h != Some(p) {
      OnChainStep(heap, heap[h.value].next, p);
    }
  }

  /** Nodes are never unlinked, and their keys and links never change. */
  ghost predicate Extends(before: seq<Node>, after: seq<Node>) {
    && |before| <= |after|
    && forall i :: 0 <= i < |before| ==> after[i].k == before[i].k && after[i].next == before[i].next
  }

  lemma {:induction false} ChainsStay(before: seq<Node>, after: seq<Node>, h: Pointer, k: Uint32, b: nat, size: nat,
                                      p: Pointer)
    requires HeapShape(before) && HeapShape(after) && Extends(before, after)
    requires Below(h, |before|) && size > 0
    ensures Find(after, h, k) == Find(before, h, k)
    ensures ChainOk(after, h, b, size) == ChainOk(before, h, b, size)
    ensures OnChain(after, h, p) == OnChain(before, h, p)
    decreases if h.Some? then h.value + 1 else 0
  {
    if h.Some? {
      var next := before[h.value].next;
      ChainsStay(before, after, next, k, b, size, p);
      ChainsStay(before, after, next, before[h.value].k, b, size, p);
    }
  }

  // ---------------------------------------------------------------------------
  // The invariant

  ghost function Lookup(s: Table, k: Uint32): Pointer
    requires Shape(s)
  {
    Find(s.heap, s.heads[Bucket(k, |s.heads|)], k)
  }

  ghost predicate LocalInv(s: Table, t: nat)
    requires Shape(s) && t < |s.threads|
  {
    var size := |s.heads|;
    var l := s.threads[t];
    && (l.PutHead? || l.PutCheck? || l.PutStore? || l.PutNext? || l.PutMiss? || l.PutPublish? || l.PutUnlock? ==>
          s.locks[Bucket(l.k, size)] == Some(t))
    && match l
       case PutCheck(k, _, node) => Find(s.heap, node, k) == Lookup(s, k)
       case PutStore(k, _, at) => Lookup(s, k) == Some(at)
       case PutNext(k, _, at) => Find(s.heap, s.heap[at].next, k) == Lookup(s, k)
       case PutMiss(k, _) => Lookup(s, k).None?
       case PutPublish(k, _, next) => Lookup(s, k).None? && next == s.heads[Bucket(k, size)]
       case GetCheck(k, node) => OnChain(s.heap, s.heads[Bucket(k, size)], node)
       case GetLoad(k, at) => Lookup(s, k) == Some(at)
       case GetNext(k, at) =>
         OnChain(s.heap, s.heads[Bucket(k, size)], s.heap[at].next) && s.heap[at].k != k
       case _ => true
  }

  /** Keys are unique per bucket and sit in the bucket they hash to; each thread is where it should be. */
  ghost predicate Inv(s: Table) {
    && Shape(s)
    && (forall b :: 0 <= b < |s.heads| ==> ChainOk(s.heap, s.heads[b], b, |s.heads|))
    && (forall t :: 0 <= t < |s.threads| ==> LocalInv(s, t))
  }

  // ---------------------------------------------------------------------------
  // The abstraction: a function of the state alone

  ghost function Contents(s: Table): map<Uint32, Uint32>
    requires Shape(s)
  {
    map k: Uint32 | 0 <= k < TWO32 && Lookup(s, k).Some? :: s.heap[Lookup(s, k).value].v
  }

  ghost function StatusOf(s: Table, t: nat): Status<Op, Result>
    requires Shape(s) && t < |s.threads|
  {
    match s.threads[t]
    case Outside => Idle
    case PutLock(k, v) => Pending(Put(k, v))
    case PutHead(k, v) => Pending(Put(k, v))
    case PutCheck(k, v, _) => Pending(Put(k, v))
    case PutStore(k, v, _) => Pending(Put(k, v))
    case PutNext(k, v, _) => Pending(Put(k, v))
    case PutMiss(k, v) => Pending(Put(k, v))
    case PutPublish(k, v, _) => Pending(Put(k, v))
    case PutUnlock(_) => Applied(Done)
    case PutReturn => Applied(Done)
    case GetHead(k) => Pending(Get(k))
    case GetCheck(k, node) => if Find(s.heap, node, k).None? then Applied(Value(0)) else Pending(Get(k))
    case GetLoad(k, _) => Pending(Get(k))
    case GetNext(k, at) => if Find(s.heap, s.heap[at].next, k).None? then Applied(Value(0)) else Pending(Get(k))
    case GetReturn(output) => Applied(Value(output))
  }

  ghost function Abs(s: Table): Atomic<map<Uint32, Uint32>, Op, Result>
    requires Shape(s)
  {
    Atomic(Contents(s), seq(|s.threads|, t requires 0 <= t < |s.threads| => StatusOf(s, t)))
  }

  /** The acts of the atomic map that one step stands for. */
  ghost function ActsOf(s: Table, c: Choice): seq<Act<Op, Result>>
    requires Shape(s) && Step(s, c).Some?
  {
    match c
    case Start(t, op) => [Visible(Call(t, op))]
    case Advance(t) =>
      match s.threads[t]
      case PutStore(_, _, _) => [Effect(t)]
      case PutPublish(_, _, _) => [Effect(t)]
      case GetHead(k) => if Lookup(s, k).None? then [Effect(t)] else []
      case GetLoad(_, _) => [Effect(t)]
      case PutReturn => [Visible(Return(t, Done))]
      case GetReturn(output) => [Visible(Return(t, Value(output)))]
      case _ => []
  }

  // ---------------------------------------------------------------------------
  // Steps

  /** What a step of thread `t` may do to what the others see. */
  ghost predicate Guarded(s: Table, s': Table, t: nat) {
    && Shape(s) && Shape(s')
    && |s'.heads| == |s.heads| && |s'.threads| == |s.threads| && t < |s.threads|
    && (forall u :: 0 <= u < |s.threads| && u != t ==> s'.threads[u] == s.threads[u])
    && (forall u, b :: 0 <= u < |s.threads| && u != t && 0 <= b < |s.heads| && s.locks[b] == Some(u) ==>
        s'.locks[b] == Some(u))
    && Extends(s.heap, s'.heap)
    && (forall b :: 0 <= b < |s.heads| ==>
          s'.heads[b] == s.heads[b] || (s.locks[b] == Some(t) && PublishedIn(s, s', b)))
  }

  /** The new head of bucket `b` is a new node with a key that was absent, in front of the old head. */
  ghost predicate PublishedIn(s: Table, s': Table, b: nat)
    requires Shape(s) && Shape(s') && |s.heads| == |s'.heads| && b < |s.heads|
  {
    var h := s'.heads[b];
    && h.Some?
    && s'.heap[h.value].next == s.heads[b]
    && Bucket(s'.heap[h.value].k, |s.heads|) == b
    && Lookup(s, s'.heap[h.value].k).None?
  }

  lemma StepGuarded(s: Table, c: Choice)
    requires Inv(s) && Step(s, c).Some?
    ensures Guarded(s, Step(s, c).value.0, c.tid)
  {
    var s' := Step(s, c).value.0;
    if c.Advance? && s.threads[c.tid].PutLock? {
      assert s.locks[Bucket(s.threads[c.tid].k, |s.heads|)].None?;
    }
    assert LocalInv(s, c.tid);
  }

  lemma LookupAfter(s: Table, s': Table, t: nat, k: Uint32)
    requires Guarded(s, s', t)
    ensures Lookup(s, k).Some? ==> Lookup(s', k) == Lookup(s, k)
    ensures s'.heads[Bucket(k, |s.heads|)] == s.heads[Bucket(k, |s.heads|)] ==> Lookup(s', k) == Lookup(s, k)
  {
    var b := Bucket(k, |s.heads|);
    ChainsStay(s.heap, s'.heap, s.heads[b], k, b, |s.heads|, None);
  }

  lemma OthersUndisturbed(s: Table, s': Table, t: nat, u: nat)
    requires Inv(s) && Guarded(s, s', t) && u < |s.threads| && u != t
    ensures LocalInv(s', u) && StatusOf(s', u) == StatusOf(s, u)
  {
    assert LocalInv(s, u);
    var l := s.threads[u];
    if l.Outside? || l.PutReturn? || l.GetReturn? || l.PutUnlock? || l.PutLock? || l.GetHead? {
      return;
    }
    var b := Bucket(l.k, |s.heads|);
    LookupAfter(s, s', t, l.k);
    match l {
      case PutCheck(k, _, node) => ChainsStay(s.heap, s'.heap, node, k, b, |s.heads|, None);
      case PutNext(k, _, at) => ChainsStay(s.heap, s'.heap, s.heap[at].next, k, b, |s.heads|, None);
      case GetCheck(k, node) =>
        ChainsStay(s.heap, s'.heap, s.heads[b], k, b, |s.heads|, node);
        ChainsStay(s.heap, s'.heap, node, k, b, |s.heads|, None);
      case GetNext(k, at) =>
        ChainsStay(s.heap, s'.heap, s.heads[b], k, b, |s.heads|, s.heap[at].next);
        ChainsStay(s.heap, s'.heap, s.heap[at].next, k, b, |s.heads|, None);
      case _ =>
    }
  }

  lemma ChainsStayOk(s: Table, s': Table, t: nat, b: nat)
    requires Inv(s) && Guarded(s, s', t) && b < |s.heads|
    ensures ChainOk(s'.heap, s'.heads[b], b, |s.heads|)
  {
    var k := if s'.heads[b].Some? then s'.heap[s'.heads[b].value].k else 0;
    ChainsStay(s.heap, s'.heap, s.heads[b], k, b, |s.heads|, None);
  }

  /** The thread that moves ends where it should be. */
  lemma MoverFine(s: Table, c: Choice)
    requires Inv(s) && Step(s, c).Some?
    ensures LocalInv(Step(s, c).value.0, c.tid)
  {
    var t := c.tid;
    var s' := Step(s, c).value.0;
    assert LocalInv(s, t);
    if c.Advance? {
      match s.threads[t] {
        case GetCheck(k, node) =>
          var b := Bucket(k, |s.heads|);
          FindFromMiddle(s.heap, s.heads[b], node, b, |s.heads|, k);
          if node.Some? {
            OnChainStep(s.heap, s.heads[b], node.value);
          }
        case _ =>
      }
    }
  }

  lemma InvStep(s: Table, c: Choice)
    requires Inv(s) && Step(s, c).Some?
    ensures Inv(Step(s, c).value.0)
  {
    var s' := Step(s, c).value.0;
    StepGuarded(s, c);
    MoverFine(s, c);
    forall u | 0 <= u < |s'.threads| && u != c.tid
      ensures LocalInv(s', u)
    {
      OthersUndisturbed(s, s', c.tid, u);
    }
    forall b | 0 <= b < |s'.heads|
      ensures ChainOk(s'.heap, s'.heads[b], b, |s'.heads|)
    {
      ChainsStayOk(s, s', c.tid, b);
    }
  }

  /** Only the two effects of `put` change the map. */
  lemma ContentsAfter(s: Table, c: Choice)
    requires Inv(s) && Step(s, c).Some?
    ensures var m := Contents(s);
            Contents(Step(s, c).value.0) ==
            if c.Advance? && (s.threads[c.tid].PutStore? || s.threads[c.tid].PutPublish?)
            then m[s.threads[c.tid].k := s.threads[c.tid].v] else m
  {
    StepGuarded(s, c);
    if c.Advance? && s.threads[c.tid].PutPublish? {
      PublishContents(s, Step(s, c).value.0, c.tid);
    } else {
      OtherContents(s, Step(s, c).value.0, c);
    }
  }

  lemma OtherContents(s: Table, s': Table, c: Choice)
    requires Inv(s) && Step(s, c).Some? && s' == Step(s, c).value.0 && Guarded(s, s', c.tid)
    requires !(c.Advance? && s.threads[c.tid].PutPublish?)
    ensures Contents(s') ==
            if c.Advance? && s.threads[c.tid].PutStore?
            then Contents(s)[s.threads[c.tid].k := s.threads[c.tid].v] else Contents(s)
  {
    hide Step, Access, Find, Extends, ChainOk;
    SameHeads(s, s', c);
    SameLookups(s, s', c.tid);
    FoundHasKey(s);
    assert LocalInv(s, c.tid);
    var l := s.threads[c.tid];
    var stores := c.Advance? && l.PutStore?;
    ContentsWhen(s, s', if stores then l.k else 0, if stores then l.v else 0, stores);
  }

  /** Of the steps that publish nothing, only PutStore changes the heap. */
  lemma SameHeads(s: Table, s': Table, c: Choice)
    requires Shape(s) && Step(s, c).Some? && s' == Step(s, c).value.0 && !(c.Advance? && s.threads[c.tid].PutPublish?)
    ensures s'.heads == s.heads && c.tid < |s.threads|
    ensures var l := s.threads[c.tid];
            if c.Advance? && l.PutStore? then l.at < |s.heap| && s'.heap == s.heap[l.at := s.heap[l.at].(v := l.v)]
            else s'.heap == s.heap
  {
  }

  lemma FoundHasKey(s: Table)
    requires Shape(s)
    ensures forall k: Uint32 :: Lookup(s, k).Some? ==>
              Lookup(s, k).value < |s.heap| && s.heap[Lookup(s, k).value].k == k
  {
  }

  lemma ContentsWhen(s: Table, s': Table, k0: Uint32, v0: Uint32, stores: bool)
    requires Shape(s) && Shape(s') && |s'.heap| == |s.heap| && (stores ==> Lookup(s, k0).Some?)
    requires forall k: Uint32 :: Lookup(s', k) == Lookup(s, k)
    requires forall k: Uint32 :: Lookup(s, k).Some? ==>
               var i := Lookup(s, k).value;
               i < |s.heap| && s'.heap[i].v == if stores && k == k0 then v0 else s.heap[i].v
    ensures Contents(s') == if stores then Contents(s)[k0 := v0] else Contents(s)
  {
    hide Lookup, Shape;
  }

  lemma SameLookups(s: Table, s': Table, t: nat)
    requires Guarded(s, s', t) && s'.heads == s.heads
    ensures forall k: Uint32 :: Lookup(s', k) == Lookup(s, k)
  {
    forall k: Uint32
      ensures Lookup(s', k) == Lookup(s, k)
    {
      LookupAfter(s, s', t, k);
    }
  }

  lemma PublishContents(s: Table, s': Table, t: nat)
    requires Inv(s) && Guarded(s, s', t)
    requires s.threads[t].PutPublish? && Access(s, t).value.0 == s'
    ensures Contents(s') == Contents(s)[s.threads[t].k := s.threads[t].v]
  {
    hide Inv, ChainOk;
    var l := s.threads[t];
    FoundHasKey(s);
    PublishLookups(s, s', t);
    ContentsAdd(s, s', l.k, l.v, l.next);
  }

  lemma PublishLookups(s: Table, s': Table, t: nat)
    requires Inv(s) && Guarded(s, s', t)
    requires s.threads[t].PutPublish? && Access(s, t).value.0 == s'
    ensures forall k: Uint32 :: Lookup(s', k) == if k == s.threads[t].k then Some(|s.heap|) else Lookup(s, k)
  {
    var l := s.threads[t];
    assert LocalInv(s, t);
    var b := Bucket(l.k, |s.heads|);
    forall k: Uint32
      ensures Lookup(s', k) == if k == l.k then Some(|s.heap|) else Lookup(s, k)
    {
      LookupAfter(s, s', t, k);
      ChainsStay(s.heap, s'.heap, s.heads[b], k, b, |s.heads|, None);
    }
  }

  lemma ContentsAdd(s: Table, s': Table, k0: Uint32, v0: Uint32, next: Pointer)
    requires Shape(s) && Shape(s') && s'.heap == s.heap + [Node(k0, v0, next)]
    requires forall k: Uint32 :: Lookup(s', k) == if k == k0 then Some(|s.heap|) else Lookup(s, k)
    requires forall k: Uint32 :: Lookup(s, k).Some? ==> Lookup(s, k).value < |s.heap|
    ensures Contents(s') == Contents(s)[k0 := v0]
  {
    hide Lookup, Shape;
  }

  /** One step of the table is the corresponding acts of the atomic map. */
  lemma StepRefines(s: Table, c: Choice)
    requires Inv(s) && Step(s, c).Some?
    ensures var (s', es) := Step(s, c).value;
            Run(MapObject, Abs(s), ActsOf(s, c)) == Some(Abs(s')) && Events(ActsOf(s, c)) == es
  {
    var (s', es) := Step(s, c).value;
    var t := c.tid;
    var acts := ActsOf(s, c);
    StepGuarded(s, c);
    InvStep(s, c);
    ContentsAfter(s, c);
    forall u | 0 <= u < |s.threads| && u != t
      ensures StatusOf(s', u) == StatusOf(s, u)
    {
      OthersUndisturbed(s, s', t, u);
    }
    assert Abs(s').status == Abs(s).status[t := StatusOf(s', t)];
    assert LocalInv(s, t);
    MoverStatus(s, c);
    if acts != [] {
      assert acts[..0] == [];
      assert Run(MapObject, Abs(s), acts[..0]) == Some(Abs(s));
      assert Events(acts[..0]) == [];
    } else {
      assert Abs(s').status == Abs(s).status;
    }
  }

  /** The thread that moves ends in the status that its act leaves. */
  lemma MoverStatus(s: Table, c: Choice)
    requires Inv(s) && Step(s, c).Some?
    ensures var after := StatusOf(Step(s, c).value.0, c.tid);
            if ActsOf(s, c) == [] then after == StatusOf(s, c.tid)
            else AtomicStep(MapObject, Abs(s), ActsOf(s, c)[0]) ==
                 Some(Atomic(Contents(Step(s, c).value.0), Abs(s).status[c.tid := after]))
  {
    ContentsAfter(s, c);
    assert LocalInv(s, c.tid);
    match c {
      case Start(_, _) =>
      case Advance(t) =>
        if ActsOf(s, c) == [] {
          QuietMove(s, t);
        } else {
          LoudMove(s, t);
        }
    }
  }

  lemma QuietMove(s: Table, t: nat)
    requires Inv(s) && t < |s.threads| && Access(s, t).Some? && ActsOf(s, Advance(t)) == []
    ensures StatusOf(Access(s, t).value.0, t) == StatusOf(s, t)
  {
    assert LocalInv(s, t);
    var l := s.threads[t];
    if l.GetCheck? {
      var b := Bucket(l.k, |s.heads|);
      FindFromMiddle(s.heap, s.heads[b], l.node, b, |s.heads|, l.k);
    }
  }

  lemma LoudMove(s: Table, t: nat)
    requires Inv(s) && t < |s.threads| && Access(s, t).Some? && ActsOf(s, Advance(t)) != []
    ensures var act := ActsOf(s, Advance(t))[0];
            var after := StatusOf(Access(s, t).value.0, t);
            if act.Visible? then act.event == Return(t, StatusOf(s, t).res) && StatusOf(s, t).Applied? && after == Idle
            else act.tid == t && StatusOf(s, t).Pending? &&
                 after == Applied(Apply(Contents(s), StatusOf(s, t).op).value.1)
  {
    assert LocalInv(s, t);
  }

  // ---------------------------------------------------------------------------
  // Runs

  /** The acts of the atomic map that explain a schedule. */
  ghost function Explanation(size: nat, n: nat, schedule: seq<Choice>): seq<Act<Op, Result>>
    requires size > 0
  {
    if schedule == [] then []
    else
      var s := Execute(size, n, schedule[..|schedule| - 1]).0;
      var c := schedule[|schedule| - 1];
      Explanation(size, n, schedule[..|schedule| - 1]) + (if Step(s, c).Some? then ActsOf(s, c) else [])
  }

  /** In every reachable state keys are unique and in their bucket, and the atomic map is in step. */
  lemma {:induction false} Simulation(size: nat, n: nat, schedule: seq<Choice>)
    requires size > 0
    ensures var (s, h) := Execute(size, n, schedule);
            && Inv(s)
            && Run(MapObject, Initial(MapObject, n), Explanation(size, n, schedule)) == Some(Abs(s))
            && Events(Explanation(size, n, schedule)) == h
  {
    if schedule == [] {
      var s := InitKvStore(size, n);
      assert Contents(s) == map[];
      assert Abs(s) == Initial(MapObject, n);
    } else {
      var earlier := schedule[..|schedule| - 1];
      var c := schedule[|schedule| - 1];
      Simulation(size, n, earlier);
      var s := Execute(size, n, earlier).0;
      if Step(s, c).Some? {
        InvStep(s, c);
        StepRefines(s, c);
        RunAppend(MapObject, Initial(MapObject, n), Explanation(size, n, earlier), ActsOf(s, c));
      } else {
        assert Explanation(size, n, schedule) == Explanation(size, n, earlier);
      }
    }
  }

  /** Every schedule of every number of threads shows a linearizable history. */
  lemma KvStoreLinearizable(size: nat, n: nat, schedule: seq<Choice>)
    requires size > 0
    ensures Linearizable(MapObject, n, Execute(size, n, schedule).1)
  {
    Simulation(size, n, schedule);
  }

  /** The nodes of `s` are still there in `s'`, and a key found in `s` is found at the same node. */
  ghost predicate Keeps(s: Table, s': Table, k: Uint32)
    requires Shape(s) && Shape(s')
  {
    Extends(s.heap, s'.heap) && (Lookup(s, k).Some? ==> Lookup(s', k) == Lookup(s, k))
  }

  /** A node once published stays: same place, same key, still found by every later lookup of its key. */
  lemma {:induction false} NeverUnlinked(size: nat, n: nat, earlier: seq<Choice>, more: seq<Choice>, k: Uint32)
    requires size > 0
    ensures Keeps(Execute(size, n, earlier).0, Execute(size, n, earlier + more).0, k)
  {
    if more == [] {
      assert earlier + more == earlier;
    } else {
      var before := earlier + more[..|more| - 1];
      NeverUnlinked(size, n, earlier, more[..|more| - 1], k);
      assert (earlier + more)[..|earlier + more| - 1] == before;
      OneMoreKept(size, n, earlier + more, k);
      hide Keeps, Shape;
      KeepsTransitive(Execute(size, n, earlier).0, Execute(size, n, before).0, Execute(size, n, earlier + more).0, k);
    }
  }

  lemma OneMoreKept(size: nat, n: nat, schedule: seq<Choice>, k: Uint32)
    requires size > 0 && schedule != []
    ensures Keeps(Execute(size, n, schedule[..|schedule| - 1]).0, Execute(size, n, schedule).0, k)
  {
    Simulation(size, n, schedule[..|schedule| - 1]);
    var s := Execute(size, n, schedule[..|schedule| - 1]).0;
    var c := schedule[|schedule| - 1];
    if Step(s, c).Some? {
      StepGuarded(s, c);
      LookupAfter(s, Step(s, c).value.0, c.tid, k);
    }
  }

  lemma KeepsTransitive(a: Table, b: Table, c: Table, k: Uint32)
    requires Shape(a) && Shape(b) && Shape(c)
    requires Keeps(a, b, k) && Keeps(b, c, k)
    ensures Keeps(a, c, k)
  {
  }
}

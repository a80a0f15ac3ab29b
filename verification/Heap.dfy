/**
 The K&R storage allocator: a circular list of free blocks in address order, joined on `free`.

 Memory is counted in units of one header (8 bytes); the static header `base` is unit 0, below
 everything that `sbrk` ever returns. A unit is a header or a piece of somebody's data.
 */
module HeapList {
  /** Links to the next free block, and the length of this block in units, header included. */
  datatype Header = Header(ptr: nat, size: nat)

  const BASE: nat := 0

  /** Memory with the free blocks in it, in the order of the list that starts at `base`. */
  datatype FreeList = FreeList(mem: seq<Header>, ring: seq<nat>)

  function Next(ring: seq<nat>, i: nat): nat
    requires i < |ring|
  {
    if i + 1 < |ring| then ring[i + 1] else ring[0]
  }

  /** The first unit after a block. */
  function End(mem: seq<Header>, a: nat): nat
    requires a < |mem|
  {
    a + mem[a].size
  }

  ghost predicate InMemory(f: FreeList) {
    && |f.ring| > 0 && f.ring[0] == BASE
    && forall i :: 0 <= i < |f.ring| ==> f.ring[i] < |f.mem|
  }

  predicate PointsOn(f: FreeList, i: nat)
    requires i < |f.ring| && f.ring[i] < |f.mem|
  {
    f.mem[f.ring[i]].ptr == Next(f.ring, i)
  }

  /** The pointers go once round all free blocks. */
  ghost predicate Linked(f: FreeList) {
    InMemory(f) && forall i :: 0 <= i < |f.ring| ==> PointsOn(f, i)
  }

  predicate Before(f: FreeList, i: nat, j: nat)
    requires i < |f.ring| && j < |f.ring| && f.ring[i] < |f.mem|
  {
    f.ring[i] < f.ring[j] && End(f.mem, f.ring[i]) <= f.ring[j]
  }

  /** Block `i` lies in memory and, unless it is `base`, is not empty. */
  predicate Sized(f: FreeList, i: nat)
    requires i < |f.ring| && f.ring[i] < |f.mem|
  {
    End(f.mem, f.ring[i]) <= |f.mem| && (f.mem[f.ring[i]].size > 0 <==> i > 0)
  }

  /** Addresses go up, blocks do not overlap, and none but `base` is empty: there is one wrap. */
  ghost predicate Ordered(f: FreeList) {
    && InMemory(f)
    && (forall i :: 0 <= i < |f.ring| ==> Sized(f, i))
    && (forall i, j :: 0 <= i < j < |f.ring| ==> Before(f, i, j))
  }

  /** Free block `i` ends where the next one begins. */
  ghost predicate Touching(f: FreeList, i: nat)
    requires InMemory(f)
  {
    i + 1 < |f.ring| && End(f.mem, f.ring[i]) == f.ring[i + 1]
  }

  /** The list as it is between two calls. */
  ghost predicate Tidy(f: FreeList) {
    Linked(f) && Ordered(f) && forall i: nat :: !Touching(f, i)
  }

  // ---------------------------------------------------------------------------
  // Blocks in use

  /** The blocks in use, by the address of their header, with their sizes. */
  ghost predicate LiveOk(mem: seq<Header>, live: map<nat, nat>) {
    && (forall a :: a in live ==> 0 < a && 0 < live[a] && a + live[a] <= |mem| && mem[a].size == live[a])
    && (forall a, b :: a in live && b in live && a < b ==> a + live[a] <= b)
  }

  predicate Apart(f: FreeList, a: nat, size: nat, i: nat)
    requires i < |f.ring| && f.ring[i] < |f.mem|
  {
    a + size <= f.ring[i] || End(f.mem, f.ring[i]) <= a
  }

  /** No block in use overlaps a free one. */
  ghost predicate Clear(f: FreeList, live: map<nat, nat>)
    requires InMemory(f)
  {
    forall a, i :: a in live && 0 <= i < |f.ring| ==> Apart(f, a, live[a], i)
  }

  ghost predicate InFree(f: FreeList, u: nat)
    requires InMemory(f)
  {
    exists i :: 0 <= i < |f.ring| && f.ring[i] <= u < End(f.mem, f.ring[i])
  }

  ghost predicate InLive(live: map<nat, nat>, u: nat) {
    exists a :: a in live && a <= u < a + live[a]
  }

  /** The units that came from `sbrk` are just those of the free blocks and of the blocks in use. */
  ghost predicate Accounted(f: FreeList, live: map<nat, nat>, got: set<nat>)
    requires InMemory(f)
  {
    forall u: nat :: u in got <==> InFree(f, u) || InLive(live, u)
  }

  /** The data and the header of every block in `live` are as they were. */
  ghost predicate Kept(mem: seq<Header>, mem': seq<Header>, live: map<nat, nat>) {
    && |mem| <= |mem'|
    && forall a, u: nat :: a in live && a <= u < a + live[a] && u < |mem| ==> mem'[u] == mem[u]
  }

  ghost predicate HeapOk(f: FreeList, live: map<nat, nat>, got: set<nat>) {
    Tidy(f) && LiveOk(f.mem, live) && Clear(f, live) && Accounted(f, live, got)
  }

  // ---------------------------------------------------------------------------
  // A block joins the list

  /** Where a block at `bp` belongs: after free block `t`. */
  predicate Place(ring: seq<nat>, bp: nat, t: nat) {
    t < |ring| && ring[t] < bp && (t + 1 < |ring| ==> bp < ring[t + 1])
  }

  function Insert(f: FreeList, bp: nat, t: nat): FreeList
    requires t < |f.ring| && f.ring[t] < |f.mem| && bp < |f.mem|
  {
    var mem := f.mem[bp := f.mem[bp].(ptr := Next(f.ring, t))];
    FreeList(mem[f.ring[t] := mem[f.ring[t]].(ptr := bp)], f.ring[..t + 1] + [bp] + f.ring[t + 1..])
  }

  /** The same, place by place. */
  ghost predicate Inserted(f: FreeList, bp: nat, t: nat, f': FreeList) {
    && InMemory(f) && t < |f.ring| && bp < |f.mem| && |f'.ring| == |f.ring| + 1 && |f'.mem| == |f.mem|
    && (forall i :: 0 <= i <= t ==> f'.ring[i] == f.ring[i])
    && f'.ring[t + 1] == bp
    && (forall i :: t + 1 < i < |f'.ring| ==> f'.ring[i] == f.ring[i - 1])
    && (forall x :: 0 <= x < |f.mem| ==> f'.mem[x].size == f.mem[x].size)
    && (forall x :: 0 <= x < |f.mem| && x != bp && x != f.ring[t] ==> f'.mem[x].ptr == f.mem[x].ptr)
    && (f.ring[t] != bp ==> f'.mem[bp].ptr == Next(f.ring, t))
    && f'.mem[f.ring[t]].ptr == bp
  }

  lemma InsertInserts(f: FreeList, bp: nat, t: nat)
    requires InMemory(f) && t < |f.ring| && bp < |f.mem|
    ensures Inserted(f, bp, t, Insert(f, bp, t))
  {
  }

  lemma InsertLinked(f: FreeList, bp: nat, t: nat, f': FreeList)
    requires Linked(f) && Ordered(f) && Place(f.ring, bp, t) && bp < |f.mem| && Inserted(f, bp, t, f')
    ensures Linked(f')
  {
    forall i | 0 <= i < |f'.ring|
      ensures f'.ring[i] < |f'.mem| && PointsOn(f', i)
    {
      NotIn(f, bp, t);
      if i <= t {
        assert PointsOn(f, i);
        assert i < t ==> Before(f, i, t);
      } else if i > t + 1 {
        assert PointsOn(f, i - 1);
        assert Before(f, t, i - 1);
      }
    }
  }

  /** Free blocks up to `t` are below `bp`, and the others above it. */
  lemma NotIn(f: FreeList, bp: nat, t: nat)
    requires Ordered(f) && Place(f.ring, bp, t)
    ensures forall i :: 0 <= i < |f.ring| ==> if i <= t then f.ring[i] < bp else bp < f.ring[i]
  {
    forall i | 0 <= i < |f.ring|
      ensures if i <= t then f.ring[i] < bp else bp < f.ring[i]
    {
      assert i < t ==> Before(f, i, t);
      assert i > t + 1 ==> Before(f, t + 1, i);
    }
  }

  /** The new block lies between its neighbours. */
  lemma InsertOrdered(f: FreeList, live: map<nat, nat>, bp: nat, t: nat, f': FreeList)
    requires Ordered(f) && LiveOk(f.mem, live) && Clear(f, live) && bp in live && Place(f.ring, bp, t) &&
             Inserted(f, bp, t, f')
    ensures Ordered(f')
    ensures forall i: nat :: Touching(f', i) ==> i == t || i == t + 1 || Touching(f, if i < t then i else i - 1)
  {
    NotIn(f, bp, t);
    forall i | 0 <= i < |f'.ring|
      ensures f'.ring[i] < |f'.mem| && Sized(f', i)
    {
      assert i != t + 1 ==> Sized(f, if i <= t then i else i - 1);
    }
    forall i, j | 0 <= i < j < |f'.ring|
      ensures Before(f', i, j)
    {
      InsertBefore(f, live, bp, t, f', i, j);
    }
  }

  lemma InsertBefore(f: FreeList, live: map<nat, nat>, bp: nat, t: nat, f': FreeList, i: nat, j: nat)
    requires Ordered(f) && LiveOk(f.mem, live) && Clear(f, live) && bp in live && Place(f.ring, bp, t) &&
             Inserted(f, bp, t, f')
    requires i < j < |f'.ring|
    ensures f'.ring[i] < |f'.mem| && Before(f', i, j)
  {
    NotIn(f, bp, t);
    var i0, j0 := if i <= t then i else i - 1, if j <= t then j else j - 1;
    if i == t + 1 {
      assert Apart(f, bp, live[bp], j0);
    } else if j == t + 1 {
      assert Apart(f, bp, live[bp], i0);
    } else {
      assert Before(f, i0, j0);
    }
  }

  lemma InsertClear(f: FreeList, live: map<nat, nat>, bp: nat, t: nat, f': FreeList)
    requires InMemory(f) && InMemory(f') && LiveOk(f.mem, live) && Clear(f, live) && bp in live && Place(f.ring, bp, t)
    requires Inserted(f, bp, t, f')
    ensures LiveOk(f'.mem, live - {bp}) && Clear(f', live - {bp}) && Kept(f.mem, f'.mem, live - {bp})
  {
    forall a, i | a in live - {bp} && 0 <= i < |f'.ring|
      ensures Apart(f', a, live[a], i)
    {
      assert i != t + 1 ==> Apart(f, a, live[a], if i <= t then i else i - 1);
    }
    forall a, u: nat | a in live - {bp} && a <= u < a + live[a]
      ensures f'.mem[u] == f.mem[u]
    {
      assert Apart(f, a, live[a], t);
    }
  }

  lemma InsertUnits(f: FreeList, live: map<nat, nat>, bp: nat, t: nat, f': FreeList, got: set<nat>)
    requires InMemory(f) && InMemory(f') && LiveOk(f.mem, live) && Accounted(f, live, got) && bp in live && t < |f.ring|
    requires Inserted(f, bp, t, f')
    ensures Accounted(f', live - {bp}, got)
  {
    assert forall x :: 0 <= x < |f.mem| ==> f'.mem[x].size == f.mem[x].size;
    forall u: nat
      ensures InFree(f', u) <==> InFree(f, u) || bp <= u < bp + live[bp]
      ensures InLive(live, u) <==> InLive(live - {bp}, u) || bp <= u < bp + live[bp]
    {
      InsertCovers(f, bp, t, f', u);
      RemoveLive(live, bp, u);
    }
  }

  lemma InsertCovers(f: FreeList, bp: nat, t: nat, f': FreeList, u: nat)
    requires InMemory(f) && InMemory(f') && bp < |f.mem| && t < |f.ring| && Inserted(f, bp, t, f')
    requires forall x :: 0 <= x < |f.mem| ==> f'.mem[x].size == f.mem[x].size
    ensures InFree(f', u) <==> InFree(f, u) || bp <= u < End(f.mem, bp)
  {
    if InFree(f, u) {
      var i :| 0 <= i < |f.ring| && f.ring[i] <= u < End(f.mem, f.ring[i]);
      var i' := if i <= t then i else i + 1;
      assert f'.ring[i'] == f.ring[i];
    }
    if bp <= u < End(f.mem, bp) {
      assert f'.ring[t + 1] == bp;
    }
    if InFree(f', u) {
      var i :| 0 <= i < |f'.ring| && f'.ring[i] <= u < End(f'.mem, f'.ring[i]);
      assert i != t + 1 ==> f.ring[if i <= t then i else i - 1] == f'.ring[i];
    }
  }

  lemma RemoveLive(live: map<nat, nat>, bp: nat, u: nat)
    requires bp in live
    ensures InLive(live, u) <==> InLive(live - {bp}, u) || bp <= u < bp + live[bp]
  {
    if InLive(live, u) {
      var a :| a in live && a <= u < a + live[a];
      assert a != bp ==> a in live - {bp} && (live - {bp})[a] == live[a];
    }
    if InLive(live - {bp}, u) {
      var a :| a in live - {bp} && a <= u < a + (live - {bp})[a];
      assert a in live && a <= u < a + live[a];
    }
  }

  // ---------------------------------------------------------------------------
  // Two free blocks become one

  function Join(f: FreeList, i: nat): FreeList
    requires i + 1 < |f.ring| && f.ring[i] < |f.mem| && f.ring[i + 1] < |f.mem|
  {
    var low, high := f.ring[i], f.ring[i + 1];
    FreeList(f.mem[low := Header(f.mem[high].ptr, f.mem[low].size + f.mem[high].size)],
             f.ring[..i + 1] + f.ring[i + 2..])
  }

  /** The same, place by place. */
  ghost predicate Joined(f: FreeList, i: nat, f': FreeList) {
    && InMemory(f) && i + 1 < |f.ring| && |f'.ring| == |f.ring| - 1 && |f'.mem| == |f.mem|
    && (forall j :: 0 <= j <= i ==> f'.ring[j] == f.ring[j])
    && (forall j :: i < j < |f'.ring| ==> f'.ring[j] == f.ring[j + 1])
    && (forall x :: 0 <= x < |f.mem| && x != f.ring[i] ==> f'.mem[x] == f.mem[x])
    && f'.mem[f.ring[i]] == Header(f.mem[f.ring[i + 1]].ptr, f.mem[f.ring[i]].size + f.mem[f.ring[i + 1]].size)
  }

  lemma JoinJoins(f: FreeList, i: nat)
    requires InMemory(f) && i + 1 < |f.ring|
    ensures Joined(f, i, Join(f, i))
  {
  }

  lemma JoinLinked(f: FreeList, i: nat, f': FreeList)
    requires Linked(f) && Ordered(f) && i + 1 < |f.ring| && Joined(f, i, f')
    ensures Linked(f')
  {
    forall j | 0 <= j < |f'.ring|
      ensures f'.ring[j] < |f'.mem| && PointsOn(f', j)
    {
      if j <= i {
        assert PointsOn(f, j);
        assert j < i ==> Before(f, j, i);
        assert PointsOn(f, i + 1);
      } else {
        assert PointsOn(f, j + 1);
        assert Before(f, i, j + 1);
      }
    }
  }

  lemma JoinOrdered(f: FreeList, i: nat, f': FreeList)
    requires Ordered(f) && Touching(f, i) && Joined(f, i, f')
    ensures Ordered(f')
    ensures forall j: nat :: Touching(f', j) ==> Touching(f, if j < i then j else j + 1)
  {
    forall j | 0 <= j < |f'.ring|
      ensures f'.ring[j] < |f'.mem| && Sized(f', j)
    {
      JoinEnd(f, i, f', j);
      assert Sized(f, j) && Sized(f, j + 1);
    }
    forall j, k | 0 <= j < k < |f'.ring|
      ensures Before(f', j, k)
    {
      JoinEnd(f, i, f', j);
      assert Before(f, j, if k <= i then k else k + 1);
      assert j >= i ==> Before(f, j + 1, k + 1);
    }
    forall j: nat | Touching(f', j)
      ensures Touching(f, if j < i then j else j + 1)
    {
      JoinEnd(f, i, f', j);
    }
  }

  /** The joined block ends where the second one ended. */
  lemma JoinEnd(f: FreeList, i: nat, f': FreeList, j: nat)
    requires Ordered(f) && Touching(f, i) && Joined(f, i, f') && j < |f'.ring|
    ensures InMemory(f')
    ensures End(f'.mem, f'.ring[j]) == if j < i then End(f.mem, f.ring[j]) else End(f.mem, f.ring[j + 1])
  {
    assert j < i ==> Before(f, j, i);
    assert j > i ==> Before(f, i, j + 1);
  }

  lemma JoinClear(f: FreeList, live: map<nat, nat>, i: nat, f': FreeList)
    requires InMemory(f) && InMemory(f') && LiveOk(f.mem, live) && Clear(f, live) && Touching(f, i) && Joined(f, i, f')
    requires f.mem[f.ring[i]].size > 0
    ensures LiveOk(f'.mem, live) && Clear(f', live) && Kept(f.mem, f'.mem, live)
  {
    forall a, j | a in live && 0 <= j < |f'.ring|
      ensures Apart(f', a, live[a], j)
    {
      assert Apart(f, a, live[a], i) && Apart(f, a, live[a], i + 1);
      assert Apart(f, a, live[a], if j <= i then j else j + 1);
    }
    forall a | a in live
      ensures !(a <= f.ring[i] < a + live[a])
    {
      assert Apart(f, a, live[a], i);
    }
  }

  lemma JoinUnits(f: FreeList, live: map<nat, nat>, i: nat, f': FreeList, got: set<nat>)
    requires Ordered(f) && Ordered(f') && Touching(f, i) && Joined(f, i, f') && Accounted(f, live, got)
    ensures Accounted(f', live, got)
  {
    forall u: nat
      ensures InFree(f, u) <==> InFree(f', u)
    {
      JoinCovers(f, i, f', u);
    }
  }

  lemma JoinCovers(f: FreeList, i: nat, f': FreeList, u: nat)
    requires Ordered(f) && Ordered(f') && Touching(f, i) && Joined(f, i, f')
    ensures InFree(f, u) <==> InFree(f', u)
  {
    if InFree(f, u) {
      var j: nat :| j < |f.ring| && f.ring[j] <= u < End(f.mem, f.ring[j]);
      var k := if j <= i then j else j - 1;
      JoinSpan(f, i, f', k);
      assert f'.ring[k] <= u < End(f'.mem, f'.ring[k]);
    }
    if InFree(f', u) {
      var k: nat :| k < |f'.ring| && f'.ring[k] <= u < End(f'.mem, f'.ring[k]);
      var j := if k < i then k else if k > i then k + 1 else if u < f.ring[i + 1] then i else i + 1;
      JoinSpan(f, i, f', k);
      assert f.ring[j] <= u < End(f.mem, f.ring[j]);
    }
  }

  /** What the block at place `k` covers. */
  lemma JoinSpan(f: FreeList, i: nat, f': FreeList, k: nat)
    requires Ordered(f) && Ordered(f') && Touching(f, i) && Joined(f, i, f') && k < |f'.ring|
    ensures k < i ==> f'.ring[k] == f.ring[k] && End(f'.mem, f'.ring[k]) == End(f.mem, f.ring[k])
    ensures k > i ==> f'.ring[k] == f.ring[k + 1] && End(f'.mem, f'.ring[k]) == End(f.mem, f.ring[k + 1])
    ensures f'.ring[i] == f.ring[i] &&
            f.ring[i] <= End(f.mem, f.ring[i]) == f.ring[i + 1] <= End(f.mem, f.ring[i + 1]) == End(f'.mem, f'.ring[i])
  {
    JoinEnd(f, i, f', k);
    JoinEnd(f, i, f', i);
  }

  // ---------------------------------------------------------------------------
  // free

  /** `free` in three steps: put the block in its place, join it with the next one, join the one before with it. */
  ghost function Freed(f: FreeList, bp: nat, t: nat): FreeList
    requires InMemory(f) && t < |f.ring| && bp < |f.mem|
  {
    var f1 := Insert(f, bp, t);
    var f2 := JoinIfTouching(f1, t + 1);
    JoinIfTouching(f2, t)
  }

  ghost function JoinIfTouching(f: FreeList, i: nat): FreeList {
    if InMemory(f) && Touching(f, i) then Join(f, i) else f
  }

  /** The heap with block `i` and the next one perhaps touching. */
  ghost predicate Almost(f: FreeList, live: map<nat, nat>, got: set<nat>, bad: set<nat>) {
    && Linked(f) && Ordered(f) && (forall i: nat :: Touching(f, i) ==> i in bad)
    && LiveOk(f.mem, live) && Clear(f, live) && Accounted(f, live, got)
  }

  lemma InsertOk(f: FreeList, live: map<nat, nat>, got: set<nat>, bp: nat, t: nat, f': FreeList)
    requires HeapOk(f, live, got) && bp in live && Place(f.ring, bp, t) && Inserted(f, bp, t, f')
    ensures Almost(f', live - {bp}, got, {t, t + 1}) && Kept(f.mem, f'.mem, live - {bp})
  {
    hide Accounted, Clear, LiveOk;
    InBounds(f.mem, live, bp);
    InsertLinked(f, bp, t, f');
    InsertOrdered(f, live, bp, t, f');
    InsertClear(f, live, bp, t, f');
    InsertUnits(f, live, bp, t, f', got);
  }

  lemma InBounds(mem: seq<Header>, live: map<nat, nat>, a: nat)
    requires LiveOk(mem, live) && a in live
    ensures 0 < a < |mem| && live[a] == mem[a].size && End(mem, a) <= |mem|
  {
  }

  lemma JoinOk(f: FreeList, live: map<nat, nat>, got: set<nat>, bad: set<nat>, i: nat, f': FreeList)
    requires Almost(f, live, got, bad) && f' == JoinIfTouching(f, i) && forall j :: j in bad ==> j <= i
    ensures Almost(f', live, got, bad - {i}) && Kept(f.mem, f'.mem, live)
  {
    hide Accounted, Clear, LiveOk;
    if Touching(f, i) {
      assert Before(f, i, i + 1) && Sized(f, i);
      JoinJoins(f, i);
      JoinLinked(f, i, f');
      JoinOrdered(f, i, f');
      JoinClear(f, live, i, f');
      JoinUnits(f, live, i, f', got);
    }
  }

  /** A freed block leaves the heap in order, and every other block as it was. */
  lemma FreedOk(f: FreeList, live: map<nat, nat>, got: set<nat>, bp: nat, t: nat)
    requires HeapOk(f, live, got) && bp in live && bp < |f.mem| && Place(f.ring, bp, t)
    ensures HeapOk(Freed(f, bp, t), live - {bp}, got) && Kept(f.mem, Freed(f, bp, t).mem, live - {bp})
    ensures |Freed(f, bp, t).mem| == |f.mem| && f.ring[t] == Freed(f, bp, t).ring[t]
  {
    hide Accounted, Clear, LiveOk;
    var f1 := Insert(f, bp, t);
    var f2 := JoinIfTouching(f1, t + 1);
    InsertInserts(f, bp, t);
    InsertOk(f, live, got, bp, t, f1);
    JoinOk(f1, live - {bp}, got, {t, t + 1}, t + 1, f2);
    JoinOk(f2, live - {bp}, got, {t, t + 1} - {t + 1}, t, JoinIfTouching(f2, t));
    KeptThrough(f.mem, f1.mem, f2.mem, live - {bp});
    KeptThrough(f.mem, f2.mem, Freed(f, bp, t).mem, live - {bp});
  }

  lemma KeptThrough(mem: seq<Header>, mem1: seq<Header>, mem2: seq<Header>, live: map<nat, nat>)
    requires Kept(mem, mem1, live) && Kept(mem1, mem2, live)
    ensures Kept(mem, mem2, live)
  {
  }

  // ---------------------------------------------------------------------------
  // malloc: a whole block

  function Take(f: FreeList, c: nat): FreeList
    requires PairInMemory(f, c)
  {
    FreeList(f.mem[f.ring[c - 1] := f.mem[f.ring[c - 1]].(ptr := f.mem[f.ring[c]].ptr)], f.ring[..c] + f.ring[c + 1..])
  }

  predicate PairInMemory(f: FreeList, c: nat) {
    0 < c < |f.ring| && f.ring[c - 1] < |f.mem| && f.ring[c] < |f.mem|
  }

  /** The same, place by place. */
  ghost predicate Taken(f: FreeList, c: nat, f': FreeList) {
    && InMemory(f) && PairInMemory(f, c) && |f'.ring| == |f.ring| - 1 && |f'.mem| == |f.mem|
    && (forall j :: 0 <= j < c ==> f'.ring[j] == f.ring[j])
    && (forall j :: c <= j < |f'.ring| ==> f'.ring[j] == f.ring[j + 1])
    && (forall x :: 0 <= x < |f.mem| ==> f'.mem[x].size == f.mem[x].size)
    && (forall x :: 0 <= x < |f.mem| && x != f.ring[c - 1] ==> f'.mem[x] == f.mem[x])
    && f'.mem[f.ring[c - 1]].ptr == f.mem[f.ring[c]].ptr
  }

  lemma TakeTakes(f: FreeList, c: nat)
    requires InMemory(f) && 0 < c < |f.ring|
    ensures PairInMemory(f, c) && Taken(f, c, Take(f, c))
  {
  }

  lemma TakeTidy(f: FreeList, c: nat, f': FreeList)
    requires Tidy(f) && Taken(f, c, f')
    ensures Tidy(f')
  {
    TakeLinked(f, c, f');
    TakeOrdered(f, c, f');
    forall j: nat
      ensures !Touching(f', j)
    {
      assert !Touching(f, if j < c then j else j + 1);
      assert j == c - 1 && c + 1 < |f.ring| ==> Before(f, c - 1, c) && Before(f, c, c + 1) && Sized(f, c);
    }
  }

  lemma TakeLinked(f: FreeList, c: nat, f': FreeList)
    requires Linked(f) && Ordered(f) && Taken(f, c, f')
    ensures Linked(f')
  {
    forall j | 0 <= j < |f'.ring|
      ensures f'.ring[j] < |f'.mem| && PointsOn(f', j)
    {
      var j0 := if j < c then j else j + 1;
      assert PointsOn(f, j0) && PointsOn(f, c);
      assert j0 < c - 1 ==> Before(f, j0, c - 1);
      assert j0 > c ==> Before(f, c - 1, j0);
    }
  }

  lemma TakeOrdered(f: FreeList, c: nat, f': FreeList)
    requires Ordered(f) && Taken(f, c, f')
    ensures Ordered(f')
  {
    forall j | 0 <= j < |f'.ring|
      ensures f'.ring[j] < |f'.mem| && Sized(f', j)
    {
      assert Sized(f, if j < c then j else j + 1);
    }
    forall j, k | 0 <= j < k < |f'.ring|
      ensures Before(f', j, k)
    {
      assert Before(f, if j < c then j else j + 1, if k < c then k else k + 1);
    }
  }

  lemma TakeClear(f: FreeList, live: map<nat, nat>, c: nat, f': FreeList, live': map<nat, nat>)
    requires Ordered(f) && InMemory(f') && LiveOk(f.mem, live) && Clear(f, live) && Taken(f, c, f')
    requires live' == live[f.ring[c] := f.mem[f.ring[c]].size]
    ensures f.ring[c] !in live && LiveOk(f'.mem, live') && Clear(f', live') && Kept(f.mem, f'.mem, live)
  {
    var p := f.ring[c];
    assert Sized(f, c) && Before(f, 0, c);
    forall a | a in live
      ensures a != p && (a < p ==> a + live[a] <= p) && (p < a ==> End(f.mem, p) <= a) &&
              !(a <= f.ring[c - 1] < a + live[a])
    {
      assert Apart(f, a, live[a], c) && Apart(f, a, live[a], c - 1);
    }
    forall a, j | a in live' && 0 <= j < |f'.ring|
      ensures Apart(f', a, live'[a], j)
    {
      var j0 := if j < c then j else j + 1;
      assert a in live ==> Apart(f, a, live[a], j0);
      assert j0 < c ==> Before(f, j0, c);
      assert j0 > c ==> Before(f, c, j0);
    }
  }

  lemma TakeUnits(f: FreeList, live: map<nat, nat>, got: set<nat>, c: nat, f': FreeList, live': map<nat, nat>)
    requires InMemory(f) && InMemory(f') && Accounted(f, live, got) && Taken(f, c, f') && f.ring[c] !in live
    requires live' == live[f.ring[c] := f.mem[f.ring[c]].size]
    ensures Accounted(f', live', got)
  {
    forall u: nat
      ensures InFree(f, u) <==> InFree(f', u) || f.ring[c] <= u < End(f.mem, f.ring[c])
      ensures InLive(live', u) <==> InLive(live, u) || f.ring[c] <= u < End(f.mem, f.ring[c])
    {
      TakeCovers(f, c, f', u);
      assert live' - {f.ring[c]} == live;
      RemoveLive(live', f.ring[c], u);
    }
  }

  lemma TakeCovers(f: FreeList, c: nat, f': FreeList, u: nat)
    requires InMemory(f) && InMemory(f') && Taken(f, c, f')
    ensures InFree(f, u) <==> InFree(f', u) || f.ring[c] <= u < End(f.mem, f.ring[c])
  {
    if InFree(f, u) {
      var j: nat :| j < |f.ring| && f.ring[j] <= u < End(f.mem, f.ring[j]);
      assert j < c ==> f'.ring[j] == f.ring[j];
      assert j > c ==> f'.ring[j - 1] == f.ring[j];
    }
    if InFree(f', u) {
      var k: nat :| k < |f'.ring| && f'.ring[k] <= u < End(f'.mem, f'.ring[k]);
      assert f.ring[if k < c then k else k + 1] == f'.ring[k];
    }
  }

  lemma TakeOk(f: FreeList, live: map<nat, nat>, got: set<nat>, c: nat)
    requires HeapOk(f, live, got) && 0 < c < |f.ring|
    ensures f.ring[c] !in live
    ensures HeapOk(Take(f, c), live[f.ring[c] := f.mem[f.ring[c]].size], got) && Kept(f.mem, Take(f, c).mem, live)
  {
    hide Accounted, Clear, LiveOk;
    var f', live' := Take(f, c), live[f.ring[c] := f.mem[f.ring[c]].size];
    TakeTakes(f, c);
    TakeTidy(f, c, f');
    TakeClear(f, live, c, f', live');
    TakeUnits(f, live, got, c, f', live');
  }

  // ---------------------------------------------------------------------------
  // malloc: the tail of a block

  function Carve(f: FreeList, c: nat, n: nat): FreeList
    requires c < |f.ring| && f.ring[c] < |f.mem| && n <= f.mem[f.ring[c]].size && End(f.mem, f.ring[c]) - n < |f.mem|
  {
    var p := f.ring[c];
    var q := End(f.mem, p) - n;
    var mem := f.mem[p := f.mem[p].(size := f.mem[p].size - n)];
    f.(mem := mem[q := mem[q].(size := n)])
  }

  lemma CarveTidy(f: FreeList, c: nat, n: nat, f': FreeList)
    requires Tidy(f) && 0 < c < |f.ring| && 0 < n < f.mem[f.ring[c]].size && End(f.mem, f.ring[c]) <= |f.mem|
    requires f' == Carve(f, c, n)
    ensures Tidy(f')
  {
    CarveSizes(f, c, n, f');
    forall j | 0 <= j < |f'.ring|
      ensures PointsOn(f', j) && Sized(f', j)
    {
      assert PointsOn(f, j) && Sized(f, j);
    }
    forall j, k | 0 <= j < k < |f'.ring|
      ensures Before(f', j, k)
    {
      assert Before(f, j, k);
    }
    forall j: nat
      ensures !Touching(f', j)
    {
      assert !Touching(f, j);
      assert j == c && c + 1 < |f.ring| ==> Before(f, c, c + 1);
    }
  }

  /** Of the free blocks only the one at `c` gets shorter. */
  lemma CarveSizes(f: FreeList, c: nat, n: nat, f': FreeList)
    requires Ordered(f) && 0 < c < |f.ring| && 0 < n < f.mem[f.ring[c]].size && End(f.mem, f.ring[c]) <= |f.mem|
    requires f' == Carve(f, c, n)
    ensures forall j :: 0 <= j < |f.ring| ==>
              f'.mem[f.ring[j]] == f.mem[f.ring[j]].(size := f.mem[f.ring[j]].size - if j == c then n else 0)
  {
    forall j | 0 <= j < |f.ring|
      ensures f'.mem[f.ring[j]] == f.mem[f.ring[j]].(size := f.mem[f.ring[j]].size - if j == c then n else 0)
    {
      assert j < c ==> Before(f, j, c);
      assert j > c ==> Before(f, c, j);
    }
  }

  lemma CarveClear(f: FreeList, live: map<nat, nat>, c: nat, n: nat, f': FreeList, live': map<nat, nat>)
    requires Ordered(f) && LiveOk(f.mem, live) && Clear(f, live) && InMemory(f')
    requires 0 < c < |f.ring| && 0 < n < f.mem[f.ring[c]].size && End(f.mem, f.ring[c]) <= |f.mem|
    requires f' == Carve(f, c, n) && live' == live[End(f.mem, f.ring[c]) - n := n]
    ensures End(f.mem, f.ring[c]) - n !in live && LiveOk(f'.mem, live') && Clear(f', live') && Kept(f.mem, f'.mem, live)
  {
    var p := f.ring[c];
    var q := End(f.mem, p) - n;
    forall a | a in live
      ensures a != q && (a < q ==> a + live[a] <= p) && (q < a ==> q + n <= a)
    {
      assert Apart(f, a, live[a], c);
    }
    CarveLive(f.mem, live, p, q, n, f'.mem, live');
    CarveSizes(f, c, n, f');
    forall a, j | a in live' && 0 <= j < |f'.ring|
      ensures Apart(f', a, live'[a], j)
    {
      assert a in live ==> Apart(f, a, live[a], j);
      assert j < c ==> Before(f, j, c);
      assert j > c ==> Before(f, c, j);
    }
  }

  /** Memory changed in two units, outside of all blocks in use. */
  lemma CarveLive(mem: seq<Header>, live: map<nat, nat>, p: nat, q: nat, n: nat, mem': seq<Header>,
                  live': map<nat, nat>)
    requires LiveOk(mem, live) && p < q < q + n <= |mem| == |mem'| && n > 0
    requires forall a :: a in live ==> a != q && (a < q ==> a + live[a] <= p) && (q < a ==> q + n <= a)
    requires (forall x :: 0 <= x < |mem| && x != p && x != q ==> mem'[x] == mem[x]) && mem'[q].size == n &&
             live' == live[q := n]
    ensures LiveOk(mem', live') && Kept(mem, mem', live)
  {
  }

  lemma CarveUnits(f: FreeList, live: map<nat, nat>, got: set<nat>, c: nat, n: nat, f': FreeList, live': map<nat, nat>)
    requires Ordered(f) && InMemory(f') && Accounted(f, live, got)
    requires 0 < c < |f.ring| && 0 < n < f.mem[f.ring[c]].size && End(f.mem, f.ring[c]) <= |f.mem|
    requires f' == Carve(f, c, n) && live' == live[End(f.mem, f.ring[c]) - n := n] && End(f.mem, f.ring[c]) - n !in live
    ensures Accounted(f', live', got)
  {
    var q := End(f.mem, f.ring[c]) - n;
    CarveSizes(f, c, n, f');
    forall u: nat
      ensures InFree(f, u) <==> InFree(f', u) || q <= u < q + n
      ensures InLive(live', u) <==> InLive(live, u) || q <= u < q + n
    {
      CarveCovers(f, c, n, f', u);
      assert live' - {q} == live;
      RemoveLive(live', q, u);
    }
  }

  lemma CarveCovers(f: FreeList, c: nat, n: nat, f': FreeList, u: nat)
    requires Ordered(f) && InMemory(f') && f'.ring == f.ring && 0 < c < |f.ring| && 0 < n < f.mem[f.ring[c]].size
    requires forall j :: 0 <= j < |f.ring| ==>
               f'.mem[f.ring[j]] == f.mem[f.ring[j]].(size := f.mem[f.ring[j]].size - if j == c then n else 0)
    ensures InFree(f, u) <==> InFree(f', u) || End(f.mem, f.ring[c]) - n <= u < End(f.mem, f.ring[c])
  {
    if InFree(f, u) {
      var j: nat :| j < |f.ring| && f.ring[j] <= u < End(f.mem, f.ring[j]);
      assert f'.ring[j] == f.ring[j];
    }
    if InFree(f', u) {
      var k: nat :| k < |f'.ring| && f'.ring[k] <= u < End(f'.mem, f'.ring[k]);
      assert f.ring[k] == f'.ring[k];
    }
    if End(f.mem, f.ring[c]) - n <= u < End(f.mem, f.ring[c]) {
      assert f.ring[c] <= u < End(f.mem, f.ring[c]);
    }
  }

  lemma CarveOk(f: FreeList, live: map<nat, nat>, got: set<nat>, c: nat, n: nat)
    requires HeapOk(f, live, got) && 0 < c < |f.ring| && 0 < n < f.mem[f.ring[c]].size
    ensures n < End(f.mem, f.ring[c]) <= |f.mem| && End(f.mem, f.ring[c]) - n !in live
    ensures HeapOk(Carve(f, c, n), live[End(f.mem, f.ring[c]) - n := n], got) && Kept(f.mem, Carve(f, c, n).mem, live)
  {
    hide Accounted, Clear, LiveOk;
    assert Sized(f, c);
    var f', live' := Carve(f, c, n), live[End(f.mem, f.ring[c]) - n := n];
    CarveTidy(f, c, n, f');
    CarveClear(f, live, c, n, f', live');
    CarveUnits(f, live, got, c, n, f', live');
  }

  // ---------------------------------------------------------------------------
  // morecore

  function Span(a: nat, n: nat): (s: set<nat>)
    ensures |s| == n && forall u: nat :: u in s <==> a <= u < a + n
  {
    if n == 0 then {} else Span(a, n - 1) + {a + n - 1}
  }

  /** A new region above everything else, taken as a block in use, is no trouble. */
  lemma GrownOk(f: FreeList, live: map<nat, nat>, got: set<nat>, mem': seq<Header>, bp: nat)
    requires HeapOk(f, live, got) && |f.mem| <= bp < |mem'| && mem'[..|f.mem|] == f.mem
    requires 0 < mem'[bp].size && End(mem', bp) <= |mem'|
    ensures bp !in live && Kept(f.mem, mem', live)
    ensures HeapOk(f.(mem := mem'), live[bp := mem'[bp].size], got + Span(bp, mem'[bp].size))
  {
    assert forall x :: 0 <= x < |f.mem| ==> mem'[x] == f.mem[x];
    var f', live' := f.(mem := mem'), live[bp := mem'[bp].size];
    GrownTidy(f, f');
    GrownClear(f, live, bp, f', live');
    GrownUnits(f, live, got, bp, f', live');
  }

  lemma GrownTidy(f: FreeList, f': FreeList)
    requires Tidy(f) && f'.ring == f.ring && |f.mem| <= |f'.mem| && forall x :: 0 <= x < |f.mem| ==>
               f'.mem[x] == f.mem[x]
    ensures Tidy(f')
  {
    forall j | 0 <= j < |f'.ring|
      ensures PointsOn(f', j) && Sized(f', j)
    {
      assert PointsOn(f, j) && Sized(f, j);
    }
    forall j, k | 0 <= j < k < |f'.ring|
      ensures Before(f', j, k)
    {
      assert Before(f, j, k);
    }
    forall j: nat
      ensures !Touching(f', j)
    {
      assert !Touching(f, j);
    }
  }

  lemma GrownClear(f: FreeList, live: map<nat, nat>, bp: nat, f': FreeList, live': map<nat, nat>)
    requires Ordered(f) && InMemory(f') && LiveOk(f.mem, live) && Clear(f, live)
    requires f'.ring == f.ring && |f.mem| <= bp < |f'.mem| && forall x :: 0 <= x < |f.mem| ==> f'.mem[x] == f.mem[x]
    requires live' == live[bp := f'.mem[bp].size] && 0 < f'.mem[bp].size && End(f'.mem, bp) <= |f'.mem|
    ensures bp !in live && LiveOk(f'.mem, live') && Clear(f', live') && Kept(f.mem, f'.mem, live)
  {
    forall a, j | a in live' && 0 <= j < |f'.ring|
      ensures Apart(f', a, live'[a], j)
    {
      assert a in live ==> Apart(f, a, live[a], j);
      assert Sized(f, j);
    }
  }

  lemma GrownUnits(f: FreeList, live: map<nat, nat>, got: set<nat>, bp: nat, f': FreeList, live': map<nat, nat>)
    requires InMemory(f) && InMemory(f') && Accounted(f, live, got) && bp !in live
    requires f'.ring == f.ring && |f.mem| <= bp < |f'.mem| && forall x :: 0 <= x < |f.mem| ==> f'.mem[x] == f.mem[x]
    requires live' == live[bp := f'.mem[bp].size]
    ensures Accounted(f', live', got + Span(bp, f'.mem[bp].size))
  {
    forall u: nat
      ensures InFree(f', u) <==> InFree(f, u)
      ensures InLive(live', u) <==> InLive(live, u) || bp <= u < End(f'.mem, bp)
    {
      assert live' - {bp} == live;
      RemoveLive(live', bp, u);
      if InFree(f, u) {
        var i: nat :| i < |f.ring| && f.ring[i] <= u < End(f.mem, f.ring[i]);
        assert f'.ring[i] <= u < End(f'.mem, f'.ring[i]);
      }
      if InFree(f', u) {
        var i: nat :| i < |f'.ring| && f'.ring[i] <= u < End(f'.mem, f'.ring[i]);
        assert f.ring[i] <= u < End(f.mem, f.ring[i]);
      }
    }
  }
}

/** malloc, free and morecore. */
module HeapCode {
  import opened Wrappers
  import opened HeapList

  const UNIT: nat := 8

  /** The least that morecore asks for. */
  const MINUNITS: nat := 4096

  /** User memory ends below 2 GiB. */
  const LIMIT: nat := 0x1000_0000

  /**
   What malloc gives. Overrun: `sbrk` was asked for no positive number of bytes, so there is no region
   where malloc puts one.
   */
  datatype Allocation = Block(p: nat) | NoMemory | Overrun

  // ---------------------------------------------------------------------------
  // Sizes

  /** `nunits`, in 32-bit arithmetic. */
  function UnitsFor(nbytes: Uint32): nat {
    (nbytes + UNIT - 1) % TWO32 / UNIT + 1
  }

  function AtLeast(nu: nat): nat {
    if nu < MINUNITS then MINUNITS else nu
  }

  /** What `sbrk` gets when it is asked for `nu` units: a signed 32-bit number. */
  function SbrkArgument(nu: nat): int {
    var n := nu * UNIT % TWO32;
    if n < TWO32 / 2 then n else n - TWO32
  }

  /** The block is big enough for all but the last seven requests, and no unit too big for any. */
  lemma BigEnough(nbytes: Uint32)
    ensures UnitsFor(nbytes) > 0 && (UnitsFor(nbytes) > 1 ==> (UnitsFor(nbytes) - 2) * UNIT < nbytes)
    ensures (UnitsFor(nbytes) - 1) * UNIT >= nbytes <==> nbytes <= TWO32 - UNIT
    ensures nbytes > TWO32 - UNIT ==> UnitsFor(nbytes) == 1
  {
  }

  /** `sbrk` is asked for the right number of bytes just when the request is below 2 GiB, or so large that it wraps. */
  lemma RightArgument(nbytes: Uint32)
    ensures SbrkArgument(AtLeast(UnitsFor(nbytes))) == AtLeast(UnitsFor(nbytes)) * UNIT
            <==> nbytes <= TWO32 / 2 - 2 * UNIT || nbytes > TWO32 - UNIT
    ensures SbrkArgument(AtLeast(UnitsFor(nbytes))) > 0
            <==> nbytes <= TWO32 / 2 - 2 * UNIT || nbytes > TWO32 - UNIT
  {
  }

  // ---------------------------------------------------------------------------
  // Which block malloc takes

  predicate IsFit(f: FreeList, i: nat, n: nat) {
    i < |f.ring| && f.ring[i] < |f.mem| && f.mem[f.ring[i]].size >= n
  }

  ghost predicate HasFit(f: FreeList, n: nat) {
    exists i: nat :: IsFit(f, i, n)
  }

  /** On the way round from `from` to `to`, place `i` comes in between. */
  predicate Between(from: nat, i: nat, to: nat) {
    if from < to then from < i < to else i > from || i < to
  }

  /** The first block after `from`, going round, that is big enough. */
  ghost predicate NextFit(f: FreeList, from: nat, c: nat, n: nat) {
    IsFit(f, c, n) && forall i: nat :: i < |f.ring| && Between(from, i, c) ==> !IsFit(f, i, n)
  }

  /** `n` units from block `c`: all of it, or its tail. */
  function Allocate(f: FreeList, c: nat, n: nat): FreeList
    requires PairInMemory(f, c) && IsFit(f, c, n) && End(f.mem, f.ring[c]) <= |f.mem| && n > 0
  {
    if f.mem[f.ring[c]].size == n then Take(f, c) else Carve(f, c, n)
  }

  lemma AllocateOk(f: FreeList, live: map<nat, nat>, got: set<nat>, c: nat, n: nat)
    requires HeapOk(f, live, got) && IsFit(f, c, n) && n > 0
    ensures PairInMemory(f, c) && n < End(f.mem, f.ring[c]) <= |f.mem| && End(f.mem, f.ring[c]) - n !in live
    ensures HeapOk(Allocate(f, c, n), live[End(f.mem, f.ring[c]) - n := n], got)
    ensures Kept(f.mem, Allocate(f, c, n).mem, live)
    ensures c - 1 < |Allocate(f, c, n).ring| && Allocate(f, c, n).ring[c - 1] == f.ring[c - 1]
  {
    hide Accounted, Clear, LiveOk, Kept;
    assert Sized(f, c);
    assert Before(f, 0, c);
    if f.mem[f.ring[c]].size == n {
      TakeOk(f, live, got, c);
    } else {
      CarveOk(f, live, got, c, n);
    }
  }

  // ---------------------------------------------------------------------------
  // What free writes

  /** The two ifs of free amount to the three steps of `Freed`. */
  lemma FreeSteps(f: FreeList, bp: nat, t: nat, mem1: seq<Header>, mem2: seq<Header>)
    requires Linked(f) && Ordered(f) && Place(f.ring, bp, t) && bp < |f.mem|
    requires forall i :: 0 <= i < |f.ring| ==> f.ring[i] != bp
    requires var p, q := f.ring[t], f.mem[f.ring[t]].ptr;
             && q < |f.mem|
             && mem1 == f.mem[bp := if End(f.mem, bp) == q then Header(f.mem[q].ptr, f.mem[bp].size + f.mem[q].size)
                                    else f.mem[bp].(ptr := q)]
             && mem2 == mem1[p := if End(mem1, p) == bp then Header(mem1[bp].ptr, mem1[p].size + mem1[bp].size)
                                  else mem1[p].(ptr := bp)]
    ensures mem2 == Freed(f, bp, t).mem
  {
    assert PointsOn(f, t);
    var f1 := Insert(f, bp, t);
    InsertInserts(f, bp, t);
    InsertLinked(f, bp, t, f1);
    hide Ordered, Place, Linked;
    assert t + 1 < |f.ring| ==> f1.ring[t + 2] == f.ring[t + 1];
    var f2 := JoinIfTouching(f1, t + 1);
    assert f2.ring[t] == f.ring[t] && f2.ring[t + 1] == bp;
  }

  /** After `free` some free block holds the whole freed one. */
  lemma FreedFits(f: FreeList, bp: nat, t: nat)
    requires InMemory(f) && bp < |f.mem| && t < |f.ring| && f.ring[t] < bp
    requires Linked(Freed(f, bp, t)) && Ordered(Freed(f, bp, t))
    ensures HasFit(Freed(f, bp, t), f.mem[bp].size)
  {
    var f1 := Insert(f, bp, t);
    InsertInserts(f, bp, t);
    var f2 := JoinIfTouching(f1, t + 1);
    assert f2.ring[t] == f.ring[t] && f2.ring[t + 1] == bp && f2.mem[bp].size >= f.mem[bp].size;
    var f3 := JoinIfTouching(f2, t);
    assert IsFit(f3, if f3 == f2 then t + 1 else t, f.mem[bp].size);
  }

  /** The place of a block is somewhere on the list. */
  lemma {:induction false} PlaceExists(ring: seq<nat>, bp: nat) returns (t: nat)
    requires |ring| > 0 && ring[0] < bp && forall i :: 0 <= i < |ring| ==> ring[i] != bp
    ensures Place(ring, bp, t)
  {
    if |ring| == 1 || ring[|ring| - 1] < bp {
      t := |ring| - 1;
    } else {
      t := PlaceExists(ring[..|ring| - 1], bp);
    }
  }

  /** A heap as a value. */
  datatype State = State(list: FreeList, at: nat, live: map<nat, nat>, got: set<nat>, grows: nat)

  /** What `sbrk` will find: how far others have moved the break, and whether there are frames enough. */
  datatype Supply = Supply(gap: nat, memory: bool)

  /** Whether `sbrk` gives so many units above `top`: there are frames, and they stay below KERNBASE. */
  predicate HasRoom(supply: Supply, top: nat, units: nat) {
    supply.memory && top + supply.gap + units < LIMIT
  }

  /** One call of `sbrk` has given `n` units, at least `MINUNITS`, above everything in memory. */
  ghost predicate OneRegion(s: State, s': State, n: nat, supply: Supply) {
    s'.grows == s.grows + 1 && s'.got == s.got + Span(|s.list.mem| + supply.gap, AtLeast(n))
  }

  /**
   What malloc of `n` units does. If a free block is big enough the first one after `freep` is used;
   otherwise `sbrk` is called once, and malloc fails just if that fails.
   */
  ghost predicate Granted(s: State, s': State, n: nat, supply: Supply, r: Allocation) {
    && (r.Overrun? <==> !HasFit(s.list, n) && SbrkArgument(AtLeast(n)) <= 0)
    && (r.NoMemory? <==>
          !HasFit(s.list, n) && SbrkArgument(AtLeast(n)) > 0 && !HasRoom(supply, |s.list.mem|, AtLeast(n)))
    && match r
       case Block(p) =>
         && p > 0 && p - 1 !in s.live && s'.live == s.live[p - 1 := n]
         && if HasFit(s.list, n) then s'.got == s.got && s'.grows == s.grows &&
            FromList(s.list, s.at, n, s'.list, s'.at, p)
            else OneRegion(s, s', n, supply)
       case _ => Untouched(s, s')
  }

  /** Nothing has happened, but perhaps the empty list was set up. */
  ghost predicate Untouched(s: State, s': State) {
    && s'.live == s.live && s'.got == s.got && s'.grows == s.grows
    && (s.list.ring != [] ==> s'.list == s.list && s'.at == s.at)
  }

  ghost predicate Grew(s0: State, s: State, n: nat, supply: Supply) {
    && HasFit(s.list, n) && !HasFit(s0.list, n) && OneRegion(s0, s, n, supply)
    && SbrkArgument(AtLeast(n)) > 0 && HasRoom(supply, |s0.list.mem|, AtLeast(n))
  }

  lemma GrantedBlock(s0: State, s1: State, s: State, s': State, n: nat, k: nat, p: nat, grown: bool,
                     supply: Supply)
    requires if grown then Grew(s0, s, n, supply)
             else s == s1 && Untouched(s0, s1) && (s0.list.ring == [] ==> !HasFit(s1.list, n))
    requires s.live == s0.live && n > 0 && IsFit(s.list, k, n)
    requires forall i: nat :: i < |s.list.ring| && Between(s.at, i, k) ==> !IsFit(s.list, i, n)
    requires PairInMemory(s.list, k) && n < End(s.list.mem, s.list.ring[k]) <= |s.list.mem|
    requires s'.list == Allocate(s.list, k, n) && s'.at == k - 1 && s'.got == s.got && s'.grows == s.grows
    requires p == End(s.list.mem, s.list.ring[k]) - n + 1 && p - 1 !in s.live && s'.live == s.live[p - 1 := n]
    ensures Granted(s0, s', n, supply, Block(p))
  {
    hide SbrkArgument, AtLeast, Span, Allocate, PairInMemory;
    if !grown {
      assert HasFit(s.list, n);
      FirstFit(s.list, s.at, k, n, s'.list, p);
    }
  }

  lemma GrantedNone(s0: State, s': State, n: nat, supply: Supply, r: Allocation)
    requires Untouched(s0, s') && !HasFit(s0.list, n) && !r.Block? && (r.Overrun? <==> SbrkArgument(AtLeast(n)) <= 0)
    requires r.NoMemory? ==> !HasRoom(supply, |s0.list.mem|, AtLeast(n))
    ensures Granted(s0, s', n, supply, r)
  {
  }

  lemma HasGrown(s0: State, s: State, s': State, n: nat, supply: Supply)
    requires !HasFit(s0.list, n) && HasFit(s'.list, n) && Untouched(s0, s) && |s.list.mem| == |s0.list.mem|
    requires OneRegion(s, s', n, supply) && SbrkArgument(AtLeast(n)) > 0 && HasRoom(supply, |s.list.mem|, AtLeast(n))
    ensures Grew(s0, s', n, supply)
  {
  }

  /** When the way round ends without a fit, nothing was there and nothing has come from morecore. */
  lemma NotYetGrown(s0: State, s1: State, s: State, n: nat, grown: bool, supply: Supply)
    requires if grown then Grew(s0, s, n, supply) else s == s1 && Untouched(s0, s1)
    requires !IsFit(s.list, s.at, n) && forall i: nat :: i < |s.list.ring| && Between(s.at, i, s.at) ==>
               !IsFit(s.list, i, n)
    ensures !grown && !HasFit(s.list, n) && !HasFit(s0.list, n)
  {
    AllUnfit(s.list, s.at, n);
    EmptyList(s0.list, n);
  }

  lemma Neighbours(f: FreeList, live: map<nat, nat>, got: set<nat>, bp: nat, t: nat)
    requires HeapOk(f, live, got) && bp in live && Place(f.ring, bp, t)
    ensures InMemory(f) && bp < |f.mem| && f.ring[t] != bp && f.mem[f.ring[t]].ptr < |f.mem| &&
            f.mem[f.ring[t]].ptr != bp
  {
    NotOnList(f, live, got, bp);
    assert PointsOn(f, t);
  }

  /** What the ifs of free have done. */
  lemma FreeDone(f: FreeList, live: map<nat, nat>, got: set<nat>, bp: nat, t: nat, mem1: seq<Header>, mem2: seq<Header>)
    requires HeapOk(f, live, got) && bp in live && Place(f.ring, bp, t) && InMemory(f) && bp < |f.mem|
    requires var p, q := f.ring[t], f.mem[f.ring[t]].ptr;
             && q < |f.mem|
             && mem1 == f.mem[bp := if End(f.mem, bp) == q then Header(f.mem[q].ptr, f.mem[bp].size + f.mem[q].size)
                                    else f.mem[bp].(ptr := q)]
             && mem2 == mem1[p := if End(mem1, p) == bp then Header(mem1[bp].ptr, mem1[p].size + mem1[bp].size)
                                  else mem1[p].(ptr := bp)]
    ensures mem2 == Freed(f, bp, t).mem && |mem2| == |f.mem|
    ensures HeapOk(Freed(f, bp, t), live - {bp}, got) && Kept(f.mem, mem2, live - {bp}) &&
            HasFit(Freed(f, bp, t), f.mem[bp].size)
    ensures t < |Freed(f, bp, t).ring| && Freed(f, bp, t).ring[t] == f.ring[t]
  {
    hide Accounted, Clear, LiveOk, Kept;
    NotOnList(f, live, got, bp);
    FreeSteps(f, bp, t, mem1, mem2);
    FreedOk(f, live, got, bp, t);
    FreedFits(f, bp, t);
  }

  /** The allocation comes from the first block after `from` that is big enough, whole or its tail. */
  ghost predicate FromList(f: FreeList, from: nat, n: nat, f': FreeList, at: nat, p: nat) {
    exists c: nat ::
      && NextFit(f, from, c, n) && PairInMemory(f, c) && n > 0 && End(f.mem, f.ring[c]) <= |f.mem|
      && f' == Allocate(f, c, n) && at == c - 1 && p == End(f.mem, f.ring[c]) - n + 1
  }

  lemma FirstFit(f: FreeList, from: nat, c: nat, n: nat, f': FreeList, p: nat)
    requires IsFit(f, c, n) && forall i: nat :: i < |f.ring| && Between(from, i, c) ==> !IsFit(f, i, n)
    requires PairInMemory(f, c) && n > 0 && End(f.mem, f.ring[c]) <= |f.mem|
    requires f' == Allocate(f, c, n) && p == End(f.mem, f.ring[c]) - n + 1
    ensures FromList(f, from, n, f', c - 1, p)
  {
    assert NextFit(f, from, c, n);
  }

  lemma KeptSame(mem: seq<Header>, live: map<nat, nat>)
    ensures Kept(mem, mem, live)
  {
  }

  lemma NewInUse(live: map<nat, nat>, a: nat, n: nat)
    requires a !in live
    ensures live[a := n] - {a} == live
  {
  }

  lemma SmallerFit(f: FreeList, n: nat, m: nat)
    requires HasFit(f, m) && n <= m
    ensures HasFit(f, n)
  {
    var i: nat :| IsFit(f, i, m);
    assert IsFit(f, i, n);
  }

  /** The place that the pointer of free block `k` leads to. */
  lemma NextPlace(f: FreeList, live: map<nat, nat>, got: set<nat>, k: nat) returns (next: nat)
    requires HeapOk(f, live, got) && k < |f.ring|
    ensures next == if k + 1 < |f.ring| then k + 1 else 0
    ensures f.ring[k] < |f.mem| && f.mem[f.ring[k]].ptr == f.ring[next]
  {
    assert PointsOn(f, k);
    next := if k + 1 < |f.ring| then k + 1 else 0;
  }

  lemma InRing(f: FreeList, live: map<nat, nat>, got: set<nat>, k: nat)
    requires HeapOk(f, live, got) && k < |f.ring|
    ensures f.ring[k] < |f.mem| && (k == 0 ==> f.mem[f.ring[k]].size == 0)
  {
    assert Sized(f, k);
  }

  lemma Fits(f: FreeList, k: nat, n: nat)
    requires k < |f.ring| && f.ring[k] < |f.mem| && f.mem[f.ring[k]].size >= n
    ensures IsFit(f, k, n) && HasFit(f, n)
  {
    assert IsFit(f, k, n);
  }

  lemma EmptyList(f: FreeList, n: nat)
    ensures HasFit(f, n) ==> f.ring != []
  {
  }

  /** Once round without a fit. */
  lemma AllUnfit(f: FreeList, at: nat, n: nat)
    requires !IsFit(f, at, n) && forall i: nat :: i < |f.ring| && Between(at, i, at) ==> !IsFit(f, i, n)
    ensures !HasFit(f, n)
  {
    assert forall i: nat :: IsFit(f, i, n) ==> i < |f.ring| && (i == at || Between(at, i, at));
  }

  lemma FitsNot(f: FreeList, k: nat, n: nat)
    requires k < |f.ring| && f.ring[k] < |f.mem| && f.mem[f.ring[k]].size < n
    ensures !IsFit(f, k, n)
  {
  }

  /** One address, one place. */
  lemma SamePlace(f: FreeList, live: map<nat, nat>, got: set<nat>, j: nat, k: nat)
    requires HeapOk(f, live, got) && j < |f.ring| && k < |f.ring| && f.ring[j] == f.ring[k]
    ensures j == k
  {
    assert j < k ==> Before(f, j, k);
    assert k < j ==> Before(f, k, j);
  }

  // ---------------------------------------------------------------------------
  // Conservation

  ghost function AnyOf(live: map<nat, nat>): (a: nat)
    requires live != map[]
    ensures a in live
  {
    var a :| a in live;
    a
  }

  /** Units of all blocks in use. */
  ghost function LiveUnits(live: map<nat, nat>): nat {
    if live == map[] then 0
    else var a := AnyOf(live); live[a] + LiveUnits(live - {a})
  }

  /** Units of the first `k` free blocks. */
  function FreeUnits(f: FreeList, k: nat): nat
    requires k <= |f.ring| && forall i :: 0 <= i < |f.ring| ==> f.ring[i] < |f.mem|
  {
    if k == 0 then 0 else FreeUnits(f, k - 1) + f.mem[f.ring[k - 1]].size
  }

  lemma {:induction false} LiveCount(mem: seq<Header>, live: map<nat, nat>) returns (s: set<nat>)
    requires LiveOk(mem, live)
    ensures |s| == LiveUnits(live) && forall u: nat :: u in s <==> InLive(live, u)
    decreases |live.Keys|
  {
    if live == map[] {
      s := {};
    } else {
      var a: nat := AnyOf(live);
      assert (live - {a}).Keys == live.Keys - {a};
      var rest := LiveCount(mem, live - {a});
      forall u: nat
        ensures InLive(live, u) <==> u in rest || u in Span(a, live[a])
        ensures u in rest ==> u !in Span(a, live[a])
      {
        RemoveLive(live, a, u);
        if a <= u < a + live[a] {
          OnlyOne(mem, live, a, u);
        }
      }
      s := rest + Span(a, live[a]);
      assert |s| == |rest| + live[a];
    }
  }

  lemma OnlyOne(mem: seq<Header>, live: map<nat, nat>, a: nat, u: nat)
    requires LiveOk(mem, live) && a in live && a <= u < a + live[a]
    ensures !InLive(live - {a}, u)
  {
    assert forall b :: b in live - {a} ==> b in live && b != a && (live - {a})[b] == live[b];
  }

  lemma {:induction false} FreeCount(f: FreeList, k: nat) returns (s: set<nat>)
    requires Ordered(f) && k <= |f.ring|
    ensures |s| == FreeUnits(f, k)
    ensures forall u: nat :: u in s <==> exists i :: 0 <= i < k && f.ring[i] <= u < End(f.mem, f.ring[i])
  {
    if k == 0 {
      s := {};
    } else {
      var rest := FreeCount(f, k - 1);
      var span := Span(f.ring[k - 1], f.mem[f.ring[k - 1]].size);
      forall u: nat | u in rest
        ensures u !in span
      {
        var i :| 0 <= i < k - 1 && f.ring[i] <= u < End(f.mem, f.ring[i]);
        assert Before(f, i, k - 1);
      }
      s := rest + span;
      assert |s| == |rest| + |span|;
    }
  }

  lemma FreeNotLive(f: FreeList, live: map<nat, nat>, i: nat, u: nat)
    requires InMemory(f) && Clear(f, live) && i < |f.ring| && f.ring[i] <= u < End(f.mem, f.ring[i])
    ensures !InLive(live, u)
  {
    forall a | a in live
      ensures !(a <= u < a + live[a])
    {
      assert Apart(f, a, live[a], i);
    }
  }

  lemma NotOnList(f: FreeList, live: map<nat, nat>, got: set<nat>, bp: nat)
    requires HeapOk(f, live, got) && bp in live
    ensures 0 < bp < |f.mem| && forall i :: 0 <= i < |f.ring| ==> f.ring[i] != bp
  {
    forall i | 0 <= i < |f.ring|
      ensures f.ring[i] != bp
    {
      assert Apart(f, bp, live[bp], i) && Sized(f, i);
    }
  }

  lemma StoreOk(f: FreeList, live: map<nat, nat>, got: set<nat>, a: nat, u: nat, x: Header)
    requires HeapOk(f, live, got) && a in live && a < u < a + live[a]
    ensures u < |f.mem| && HeapOk(f.(mem := f.mem[u := x]), live, got)
  {
    var f' := f.(mem := f.mem[u := x]);
    forall i | 0 <= i < |f.ring|
      ensures f.ring[i] != u && PointsOn(f', i) && Sized(f', i)
    {
      assert Apart(f, a, live[a], i) && Sized(f, i) && PointsOn(f, i);
    }
    forall i, j | 0 <= i < j < |f.ring|
      ensures Before(f', i, j)
    {
      assert Before(f, i, j);
    }
    assert forall i: nat :: Touching(f', i) ==> Touching(f, i);
    forall b, i | b in live && 0 <= i < |f.ring|
      ensures Apart(f', b, live[b], i)
    {
      assert Apart(f, b, live[b], i);
    }
    StoreUnits(f, u, f');
  }

  lemma StoreUnits(f: FreeList, u: nat, f': FreeList)
    requires InMemory(f) && InMemory(f') && f'.ring == f.ring
    requires forall i :: 0 <= i < |f.ring| ==> f'.mem[f.ring[i]] == f.mem[f.ring[i]]
    ensures forall v: nat :: InFree(f', v) <==> InFree(f, v)
  {
    forall v: nat
      ensures InFree(f', v) <==> InFree(f, v)
    {
      if InFree(f, v) {
        var i: nat :| i < |f.ring| && f.ring[i] <= v < End(f.mem, f.ring[i]);
        assert f'.ring[i] <= v < End(f'.mem, f'.ring[i]);
      }
      if InFree(f', v) {
        var i: nat :| i < |f.ring| && f.ring[i] <= v < End(f'.mem, f.ring[i]);
        assert f.ring[i] <= v < End(f.mem, f.ring[i]);
      }
    }
  }

  class Heap {
    var mem: seq<Header>
    var freep: Option<nat>
    /** The free blocks in address order, and where `freep` is among them. */
    ghost var ring: seq<nat>
    ghost var at: nat
    /** The blocks in use, and all units that came from `sbrk`, in `grows` calls. */
    ghost var live: map<nat, nat>
    ghost var got: set<nat>
    ghost var grows: nat

    ghost function List(): FreeList
      reads this
    {
      FreeList(mem, ring)
    }

    ghost predicate Valid()
      reads this
    {
      && 0 < |mem| <= LIMIT
      && match freep
         case None => ring == [] && live == map[] && got == {}
         case Some(p) => HeapOk(List(), live, got) && at < |ring| && p == ring[at]
    }

    /** Only `base` is there, and it is not set up. */
    constructor (mem: seq<Header>)
      requires 0 < |mem| <= LIMIT
      ensures Valid() && this.mem == mem && freep == None && live == map[] && got == {} && grows == 0
    {
      this.mem, freep := mem, None;
      ring, at, live, got, grows := [], 0, map[], {}, 0;
    }

    /** The owner of a block writes into it. */
    method Store(a: nat, u: nat, x: Header)
      requires Valid() && a in live && a < u < a + live[a]
      modifies this`mem
      ensures Valid() && u < |old(mem)| && mem == old(mem)[u := x]
    {
      ghost var f := List();
      assert forall i :: 0 <= i < |ring| ==> Apart(f, a, live[a], i);
      mem := mem[u := x];
      StoreOk(f, live, got, a, u, x);
    }

    /** The loop of free: the free block after which `bp` belongs. */
    method FindPlace(bp: nat) returns (p: nat, ghost t: nat)
      requires Valid() && bp in live
      ensures Place(ring, bp, t) && p == ring[t]
      ensures p < bp && p < |mem| && (bp < mem[p].ptr || mem[p].ptr <= p)
    {
      NotOnList(List(), live, got, bp);
      t := PlaceExists(ring, bp);
      p := freep.value;
      ghost var k: nat := at;
      while !(bp > p && bp < mem[p].ptr)
        invariant 0 <= k < |ring| && p == ring[k]
        decreases if k <= t then t - k else t + |ring| - k
      {
        assert PointsOn(List(), k);
        assert k + 1 < |ring| ==> Before(List(), k, k + 1);
        if p >= mem[p].ptr && (bp > p || bp < mem[p].ptr) {
          return p, k;
        }
        p := mem[p].ptr;
        k := if k + 1 < |ring| then k + 1 else 0;
      }
      assert PointsOn(List(), k);
      t := k;
    }

    /** free. */
    method Free(ap: nat)
      requires Valid() && ap > 0 && ap - 1 in live
      modifies this`mem, this`freep, this`ring, this`at, this`live
      ensures Valid() && live == old(live) - {ap - 1} && |mem| == |old(mem)|
      ensures Kept(old(mem), mem, live)
      ensures ap - 1 < |old(mem)| && HasFit(List(), old(mem)[ap - 1].size)
      ensures freep.Some? && InMemory(old(List())) && Place(old(ring), ap - 1, at) &&
              List() == Freed(old(List()), ap - 1, at)
    {
      hide HeapOk, Freed, Kept, IsFit;
      var bp := ap - 1;
      ghost var f := List();
      var p;
      p, at := FindPlace(bp);
      Neighbours(f, live, got, bp, at);
      if bp + mem[bp].size == mem[p].ptr {
        mem := mem[bp := mem[bp].(size := mem[bp].size + mem[mem[p].ptr].size)];
        mem := mem[bp := mem[bp].(ptr := mem[mem[p].ptr].ptr)];
      } else {
        mem := mem[bp := mem[bp].(ptr := mem[p].ptr)];
      }
      ghost var mem1 := mem;
      if p + mem[p].size == bp {
        mem := mem[p := mem[p].(size := mem[p].size + mem[bp].size)];
        mem := mem[p := mem[p].(ptr := mem[bp].ptr)];
      } else {
        mem := mem[p := mem[p].(ptr := bp)];
      }
      freep := Some(p);
      FreeDone(f, live, got, bp, at, mem1, mem);
      ring := Freed(f, bp, at).ring;
      live := live - {bp};
    }

    /** sbrk: a region above everything so far, perhaps after a gap that somebody else has asked for; or none. */
    method Sbrk(units: nat, supply: Supply) returns (r: Option<nat>)
      requires 0 < |mem|
      modifies this`mem
      ensures r == if HasRoom(supply, |old(mem)|, units) then Some(|old(mem)| + supply.gap) else None
      ensures r.None? ==> mem == old(mem)
      ensures r.Some? ==> r.value + units == |mem| <= LIMIT && mem[..|old(mem)|] == old(mem)
    {
      if !supply.memory || |mem| + supply.gap + units >= LIMIT {
        return None;
      }
      assert |seq(supply.gap + units, _ => Header(0, 0))| == supply.gap + units;
      var region: seq<Header> :| |region| == supply.gap + units;
      r := Some(|mem| + supply.gap);
      mem := mem + region;
    }

    /** A region from sbrk with its header: a block in use, for the moment. */
    method Region(nu: nat, supply: Supply) returns (r: Option<nat>)
      requires Valid() && freep.Some? && nu > 0
      modifies this`mem, this`live, this`got, this`grows
      ensures Valid() && |mem| <= LIMIT
      ensures r == if HasRoom(supply, |old(mem)|, nu) then Some(|old(mem)| + supply.gap) else None
      ensures r.None? ==> mem == old(mem) && live == old(live) && got == old(got) && grows == old(grows)
      ensures r.Some? ==>
                && r.value !in old(live) && live == old(live)[r.value := nu] && r.value < |mem|
                && mem[r.value].size == nu && Kept(old(mem), mem, old(live)) && |old(mem)| <= r.value
                && got == old(got) + Span(r.value, nu) && grows == old(grows) + 1
    {
      hide HeapOk, Span;
      ghost var f := List();
      var p := Sbrk(nu, supply);
      if p.None? {
        return None;
      }
      var hp := p.value;
      mem := mem[hp := mem[hp].(size := nu)];
      assert mem[..|f.mem|] == f.mem;
      GrownOk(f, live, got, mem, hp);
      NewInUse(live, hp, nu);
      live := live[hp := nu];
      got := got + Span(hp, nu);
      grows := grows + 1;
      return Some(hp);
    }

    /**
     morecore: a new region, given to free. None: there is no memory. The second result is whether
     `sbrk` was misled.
     */
    method MoreCore(nu0: nat, supply: Supply) returns (r: Option<nat>, misled: bool)
      requires Valid() && freep.Some? && nu0 > 0
      modifies this`mem, this`freep, this`ring, this`at, this`live, this`got, this`grows
      ensures Valid() && live == old(live) && Kept(old(mem), mem, live)
      ensures misled <==> SbrkArgument(AtLeast(nu0)) <= 0
      ensures r.None? <==> misled || !HasRoom(supply, |old(mem)|, AtLeast(nu0))
      ensures r.None? ==>
                && mem == old(mem) && freep == old(freep) && ring == old(ring) && at == old(at) && got == old(got)
                && grows == old(grows)
      ensures r.Some? ==> freep == r && HasFit(List(), nu0) && grows == old(grows) + 1
      ensures r.Some? ==> got == old(got) + Span(|old(mem)| + supply.gap, AtLeast(nu0))
    {
      hide HeapOk, IsFit, SbrkArgument, Freed, UnitsFor, Span, HasRoom;
      var nu := nu0;
      if nu < MINUNITS {
        nu := MINUNITS;
      }
      ghost var live0, mem0 := live, mem;
      KeptSame(mem, live);
      if SbrkArgument(nu) <= 0 {
        return None, true;
      }
      var p := Region(nu, supply);
      if p.None? {
        return None, false;
      }
      ghost var mem1 := mem;
      hide Kept;
      Free(p.value + 1);
      assert live == live0;
      KeptThrough(mem0, mem1, mem, live0);
      SmallerFit(List(), nu0, nu);
      return freep, false;
    }

    /** The end of malloc: `n` units from the block at place `k`. */
    method Grant(prevp: nat, p: nat, n: nat, ghost k: nat) returns (ap: nat)
      requires Valid() && freep.Some? && IsFit(List(), k, n) && n > 0
      requires p == ring[k] && (k > 0 ==> prevp == ring[k - 1])
      modifies this`mem, this`freep, this`ring, this`at, this`live
      ensures Valid() && Kept(old(mem), mem, old(live))
      ensures PairInMemory(old(List()), k) && n < End(old(mem), old(ring)[k]) <= |old(mem)|
      ensures List() == Allocate(old(List()), k, n) && freep.Some? && at == k - 1
      ensures ap == End(old(mem), old(ring)[k]) - n + 1 && ap - 1 !in old(live) && live == old(live)[ap - 1 := n]
    {
      hide HeapOk, Kept;
      ghost var f := List();
      AllocateOk(f, live, got, k, n);
      var q := p;
      if mem[p].size == n {
        mem := mem[prevp := mem[prevp].(ptr := mem[p].ptr)];
      } else {
        mem := mem[p := mem[p].(size := mem[p].size - n)];
        q := q + mem[q].size;
        mem := mem[q := mem[q].(size := n)];
      }
      freep := Some(prevp);
      assert mem == Allocate(f, k, n).mem;
      ring, at, live := Allocate(f, k, n).ring, k - 1, live[q := n];
      return q + 1;
    }

    /** The first lines of malloc: an empty list, if there is none yet. */
    method SetUp() returns (prevp: nat)
      requires Valid()
      modifies this`mem, this`freep, this`ring, this`at
      ensures Valid() && freep == Some(prevp) && Kept(old(mem), mem, live) && |mem| == |old(mem)|
      ensures Untouched(old(Now()), Now()) && forall n: nat :: n > 0 && old(ring) == [] ==> !HasFit(List(), n)
    {
      if freep.None? {
        mem := mem[BASE := mem[BASE].(ptr := BASE)];
        freep := Some(BASE);
        mem := mem[BASE := mem[BASE].(size := 0)];
        ring, at := [BASE], 0;
        return BASE;
      }
      return freep.value;
    }

    /** malloc. */
    method Malloc(nbytes: Uint32, supply: Supply) returns (r: Allocation)
      requires Valid()
      modifies this
      ensures Valid() && Kept(old(mem), mem, old(live))
      ensures Granted(old(Now()), Now(), UnitsFor(nbytes), supply, r)
    {
      hide HeapOk, IsFit, SbrkArgument, Allocate, UnitsFor, Kept, HasFit, PairInMemory, Span, AtLeast, Granted, Grew,
           HasRoom, OneRegion, Untouched;
      BigEnough(nbytes);
      var nunits := UnitsFor(nbytes);
      ghost var s0, mem0, grown := Now(), mem, false;
      var prevp := SetUp();
      ghost var s1 := Now();
      ghost var k: nat := NextPlace(List(), live, got, at);
      var p := mem[prevp].ptr;
      while true
        invariant Valid() && freep.Some? && k < |ring| && p == ring[k] && (k > 0 ==> prevp == ring[k - 1])
        invariant live == s0.live && Kept(mem0, mem, live)
        invariant forall i: nat :: i < |ring| && Between(at, i, k) ==> !IsFit(List(), i, nunits)
        invariant if grown then Grew(s0, Now(), nunits, supply) else Now() == s1
        decreases if grown then 0 else 1, if k <= at then at - k else at + |ring| - k
      {
        InRing(List(), live, got, k);
        ghost var s, mem1 := Now(), mem;
        if mem[p].size >= nunits {
          Fits(List(), k, nunits);
          var ap := Grant(prevp, p, nunits, k);
          KeptThrough(mem0, mem1, mem, s0.live);
          GrantedBlock(s0, s1, s, Now(), nunits, k, ap, grown, supply);
          return Block(ap);
        }
        FitsNot(List(), k, nunits);
        if p == freep.value {
          SamePlace(List(), live, got, k, at);
          NotYetGrown(s0, s1, s, nunits, grown, supply);
          var more, misled := MoreCore(nunits, supply);
          if more.None? {
            r := if misled then Overrun else NoMemory;
            GrantedNone(s0, Now(), nunits, supply, r);
            return;
          }
          KeptThrough(mem0, mem1, mem, s0.live);
          HasGrown(s0, s, Now(), nunits, supply);
          p := more.value;
          grown := true;
          k := at;
        }
        prevp := p;
        k := NextPlace(List(), live, got, k);
        p := mem[p].ptr;
      }
    }

    ghost function Now(): State
      reads this
    {
      State(List(), at, live, got, grows)
    }
  }

  /** Free units and units in use add up to what `sbrk` has given. */
  lemma UnitsConserved(h: Heap)
    requires h.Valid() && h.freep.Some?
    ensures |h.got| == FreeUnits(h.List(), |h.ring|) + LiveUnits(h.live)
  {
    var free := FreeCount(h.List(), |h.ring|);
    var used := LiveCount(h.mem, h.live);
    forall u: nat | u in free
      ensures u !in used
    {
      var i: nat :| i < |h.ring| && h.ring[i] <= u < End(h.mem, h.ring[i]);
      FreeNotLive(h.List(), h.live, i, u);
    }
    assert forall u: nat :: u in free <==> InFree(h.List(), u);
    assert h.got == free + used;
    assert |free + used| == |free| + |used|;
  }
}

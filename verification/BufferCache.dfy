/**
 The buffer cache: NBUF buffers on one circular doubly linked list, least recently used last.

 The buffers are a static array, so a pointer to one is its index; the list head is one more
 element after the last buffer. A process that finds a buffer locked sleeps until it is free;
 here a caller must not ask for a block that is locked.
 */
module BufferCache {
  import opened Wrappers
  import opened Blocks
  import opened Counting
  import opened LogDisk

  const NBUF: nat := 30
  const HEAD: nat := 30

  /** The disk that the kernel uses. */
  const ROOTDEV: nat := 1

  datatype Buf = Buf(
    dev: nat,
    blockno: nat,
    valid: bool,
    dirty: bool,
    locked: bool,
    refcnt: nat,
    prev: nat,
    next: nat,
    data: Block)

  // ---------------------------------------------------------------------------
  // The list

  /** The buffers in the order of the list, with the head at both ends. */
  function Ring(lru: seq<nat>): seq<nat> { [HEAD] + lru + [HEAD] }

  ghost predicate Distinct(lru: seq<nat>) {
    && (forall i :: 0 <= i < |lru| ==> lru[i] < NBUF)
    && (forall i, j :: 0 <= i < j < |lru| ==> lru[i] != lru[j])
  }

  /** `y` comes right after `x`. */
  predicate Adjacent(buf: seq<Buf>, x: nat, y: nat) {
    x < |buf| && y < |buf| && buf[x].next == y && buf[y].prev == x
  }

  predicate LinkAt(buf: seq<Buf>, r: seq<nat>, i: nat)
    requires i + 1 < |r|
  {
    Adjacent(buf, r[i], r[i + 1])
  }

  /** `next` and `prev` of the head and of the buffers of `lru` follow the list both ways. */
  ghost predicate Linked(buf: seq<Buf>, lru: seq<nat>) {
    && |buf| == NBUF + 1 && Distinct(lru)
    && (forall i :: 0 <= i < |lru| + 1 ==> LinkAt(buf, Ring(lru), i))
  }

  /** The two assignments that take a buffer out of the list. */
  function Unlink(buf: seq<Buf>, b: nat): seq<Buf>
    requires b < |buf| && buf[b].next < |buf| && buf[b].prev < |buf|
  {
    var buf1 := buf[buf[b].next := buf[buf[b].next].(prev := buf[b].prev)];
    buf1[buf1[b].prev := buf1[buf1[b].prev].(next := buf1[b].next)]
  }

  lemma UnlinkKeepsList(buf: seq<Buf>, lru: seq<nat>, k: nat)
    requires Linked(buf, lru) && k < |lru|
    ensures buf[lru[k]].next < |buf| && buf[lru[k]].prev < |buf|
    ensures Linked(Unlink(buf, lru[k]), Without(lru, k))
  {
    var r := Ring(lru);
    var b := lru[k];
    assert LinkAt(buf, r, k) && LinkAt(buf, r, k + 1);
    assert r[k + 1] == b && r[k] == buf[b].prev && r[k + 2] == buf[b].next;
    var buf' := Unlink(buf, b);
    var r' := Ring(Without(lru, k));
    assert r' == r[..k + 1] + r[k + 2..];
    forall i | 0 <= i < |r'| - 1
      ensures LinkAt(buf', r', i)
    {
      UnlinkLink(buf, lru, k, i);
    }
  }

  lemma UnlinkLink(buf: seq<Buf>, lru: seq<nat>, k: nat, i: nat)
    requires Linked(buf, lru) && k < |lru| && i < |lru|
    requires buf[lru[k]].prev == Ring(lru)[k] < |buf| && buf[lru[k]].next == Ring(lru)[k + 2] < |buf|
    ensures LinkAt(Unlink(buf, lru[k]), Ring(Without(lru, k)), i)
  {
    var r, r' := Ring(lru), Ring(Without(lru, k));
    assert r'[i] == r[if i <= k then i else i + 1] && r'[i + 1] == r[if i < k then i + 1 else i + 2];
    assert LinkAt(buf, r, if i <= k then i else i + 1);
    assert LinkAt(buf, r, k);
    hide Linked;
    RingApart(lru, if i <= k then i else i + 1, k);
    RingApart(lru, if i < k then i + 1 else i + 2, k + 2);
  }

  /** Different places on the ring, but for its two ends, are different buffers. */
  lemma RingApart(lru: seq<nat>, i: nat, j: nat)
    requires Distinct(lru) && i <= |lru| + 1 && j <= |lru| + 1
    ensures Ring(lru)[i] == Ring(lru)[j] <==> i == j || (i == 0 && j == |lru| + 1) || (i == |lru| + 1 && j == 0)
  {
  }

  /** The four assignments that put a buffer at the front of the list. */
  function LinkFront(buf: seq<Buf>, b: nat): seq<Buf>
    requires b < HEAD < |buf| && buf[HEAD].next < |buf|
  {
    var buf1 := buf[b := buf[b].(next := buf[HEAD].next, prev := HEAD)];
    var buf2 := buf1[buf1[HEAD].next := buf1[buf1[HEAD].next].(prev := b)];
    buf2[HEAD := buf2[HEAD].(next := b)]
  }

  lemma LinkFrontKeepsList(buf: seq<Buf>, lru: seq<nat>, b: nat)
    requires Linked(buf, lru) && b < NBUF && forall i :: 0 <= i < |lru| ==> lru[i] != b
    ensures buf[HEAD].next < |buf|
    ensures Linked(LinkFront(buf, b), [b] + lru)
  {
    var r := Ring(lru);
    assert LinkAt(buf, r, 0);
    var buf' := LinkFront(buf, b);
    var r' := Ring([b] + lru);
    assert r' == [HEAD, b] + r[1..];
    forall i | 0 <= i < |r'| - 1
      ensures LinkAt(buf', r', i)
    {
      if i > 1 {
        assert LinkAt(buf, r, i - 1);
      }
    }
  }

  /** The two caches agree on everything but the links. */
  ghost predicate SameBufs(buf: seq<Buf>, buf': seq<Buf>) {
    |buf| == |buf'| && forall i :: 0 <= i < |buf| ==> buf'[i] == buf[i].(prev := buf'[i].prev, next := buf'[i].next)
  }

  lemma UnlinkSame(buf: seq<Buf>, b: nat)
    requires b < |buf| && buf[b].next < |buf| && buf[b].prev < |buf|
    ensures SameBufs(buf, Unlink(buf, b))
  {
  }

  lemma LinkFrontSame(buf: seq<Buf>, b: nat)
    requires b < HEAD < |buf| && buf[HEAD].next < |buf|
    ensures SameBufs(buf, LinkFront(buf, b))
  {
  }

  lemma SameTransitive(buf: seq<Buf>, buf1: seq<Buf>, buf2: seq<Buf>)
    requires SameBufs(buf, buf1) && SameBufs(buf1, buf2)
    ensures SameBufs(buf, buf2)
  {
  }

  /** A buffer moved to the front of the list. */
  function MoveToFront(buf: seq<Buf>, b: nat): seq<Buf>
    requires b < HEAD < |buf| && buf[b].next < |buf| && buf[b].prev < |buf| && Unlink(buf, b)[HEAD].next < |buf|
  {
    LinkFront(Unlink(buf, b), b)
  }

  lemma MovedToFront(buf: seq<Buf>, lru: seq<nat>, k: nat)
    requires Linked(buf, lru) && k < |lru|
    ensures buf[lru[k]].next < |buf| && buf[lru[k]].prev < |buf| && Unlink(buf, lru[k])[HEAD].next < |buf|
    ensures Linked(MoveToFront(buf, lru[k]), [lru[k]] + Without(lru, k))
    ensures SameBufs(buf, MoveToFront(buf, lru[k]))
  {
    UnlinkKeepsList(buf, lru, k);
    var buf1 := Unlink(buf, lru[k]);
    FrontOf(buf, buf1, Without(lru, k), lru[k]);
  }

  lemma FrontOf(buf: seq<Buf>, buf1: seq<Buf>, rest: seq<nat>, b: nat)
    requires Linked(buf1, rest) && b < NBUF && forall i :: 0 <= i < |rest| ==> rest[i] != b
    requires |buf| == |buf1| && buf[b].next < |buf| && buf[b].prev < |buf| && buf1 == Unlink(buf, b)
    ensures buf1[HEAD].next < |buf1| && Linked(LinkFront(buf1, b), [b] + rest) && SameBufs(buf, LinkFront(buf1, b))
  {
    LinkFrontKeepsList(buf1, rest, b);
    UnlinkSame(buf, b);
    LinkFrontSame(buf1, b);
    SameTransitive(buf, buf1, LinkFront(buf1, b));
  }

  lemma NotItsOwn(buf: seq<Buf>, lru: seq<nat>, k: nat)
    requires Linked(buf, lru) && k < |lru|
    ensures buf[lru[k]].next != lru[k] && buf[lru[k]].prev != lru[k]
  {
    assert LinkAt(buf, Ring(lru), k) && LinkAt(buf, Ring(lru), k + 1);
  }

  /** The six assignments of `brelse`, one at a time. */
  lemma Assignments(buf: seq<Buf>, b: nat)
    requires b < HEAD < |buf| && buf[b].next < |buf| && buf[b].prev < |buf| && buf[b].next != b && buf[b].prev != b
    requires Unlink(buf, b)[HEAD].next < |buf|
    ensures var b1 := buf[buf[b].next := buf[buf[b].next].(prev := buf[b].prev)];
            b1[b].prev < |buf| &&
            var b2 := b1[b1[b].prev := b1[b1[b].prev].(next := b1[b].next)];
            b2[HEAD].next < |buf| &&
            var b3 := b2[b := b2[b].(next := b2[HEAD].next)];
            var b4 := b3[b := b3[b].(prev := HEAD)];
            var b5 := b4[b4[HEAD].next := b4[b4[HEAD].next].(prev := b)];
            b5[HEAD := b5[HEAD].(next := b)] == MoveToFront(buf, b)
  {
  }

  // ---------------------------------------------------------------------------
  // The contents

  predicate Holds(x: Buf, dev: nat, blockno: nat) { x.dev == dev && x.blockno == blockno }

  /** The buffer is free to be used for another block. */
  predicate Recyclable(x: Buf) { x.refcnt == 0 && !x.dirty }

  /** What holds of one buffer: in particular a clean one that nobody holds equals its disk block. */
  predicate BufOk(x: Buf, disk: Disk) {
    && (x.valid ==> x.dev == ROOTDEV && x.blockno < |disk|)
    && (x.dirty ==> x.valid)
    && (x.locked ==> x.refcnt > 0)
    && (x.valid && !x.dirty && !x.locked ==> x.data == disk[x.blockno])
  }

  /** There is at most one buffer per block of the disk. */
  ghost predicate Unique(buf: seq<Buf>) {
    && NBUF <= |buf|
    && forall i, j :: 0 <= i < j < NBUF && buf[i].dev == ROOTDEV && buf[j].dev == ROOTDEV ==>
         buf[i].blockno != buf[j].blockno
  }

  ghost predicate CacheOk(buf: seq<Buf>, disk: Disk) {
    Unique(buf) && forall i :: 0 <= i < NBUF ==> BufOk(buf[i], disk)
  }

  /** The first of the first `n` buffers that holds the block. */
  function FindBuf(buf: seq<Buf>, blockno: nat, n: nat): (r: Option<nat>)
    requires n <= |buf|
    ensures r.Some? ==> r.value < n && Holds(buf[r.value], ROOTDEV, blockno)
    ensures r.None? ==> forall i :: 0 <= i < n ==> !Holds(buf[i], ROOTDEV, blockno)
  {
    if n == 0 then None
    else if Holds(buf[n - 1], ROOTDEV, blockno) then Some(n - 1)
    else FindBuf(buf, blockno, n - 1)
  }

  /** A block as `bread` gives it. */
  function ViewOf(buf: seq<Buf>, disk: Disk, blockno: nat): Block
    requires NBUF <= |buf| && blockno < |disk|
  {
    match FindBuf(buf, blockno, NBUF)
    case Some(i) => if buf[i].valid then buf[i].data else disk[blockno]
    case None => disk[blockno]
  }

  lemma ViewThrough(buf: seq<Buf>, disk: Disk, i: nat)
    requires Unique(buf) && i < NBUF && buf[i].dev == ROOTDEV && buf[i].blockno < |disk|
    ensures FindBuf(buf, buf[i].blockno, NBUF) == Some(i)
    ensures ViewOf(buf, disk, buf[i].blockno) == if buf[i].valid then buf[i].data else disk[buf[i].blockno]
  {
  }

  /** The blocks that are pinned because the log has not written them home yet. */
  ghost function PinnedIn(buf: seq<Buf>): set<nat>
    requires NBUF <= |buf|
  {
    set i: nat | i < NBUF && buf[i].dirty :: buf[i].blockno
  }

  /** The blocks that somebody holds. */
  ghost function LockedIn(buf: seq<Buf>): set<nat>
    requires NBUF <= |buf|
  {
    set i: nat | i < NBUF && buf[i].locked && buf[i].dev == ROOTDEV :: buf[i].blockno
  }

  /** How the two sets change with one buffer. */
  lemma SetsAfter(buf: seq<Buf>, buf': seq<Buf>, disk: Disk, disk': Disk, b: nat)
    requires CacheOk(buf, disk) && CacheOk(buf', disk') && |buf| == |buf'| && b < NBUF
    requires forall i :: 0 <= i < NBUF && i != b ==> buf'[i] == buf[i].(prev := buf'[i].prev, next := buf'[i].next)
    ensures PinnedIn(buf') == PinnedIn(buf) - (if buf[b].dirty then {buf[b].blockno} else {})
                              + (if buf'[b].dirty then {buf'[b].blockno} else {})
    ensures LockedIn(buf') == LockedIn(buf) - (if buf[b].locked && buf[b].dev == ROOTDEV then {buf[b].blockno} else {})
                              + (if buf'[b].locked && buf'[b].dev == ROOTDEV then {buf'[b].blockno} else {})
  {
    assert forall i :: 0 <= i < NBUF ==> BufOk(buf[i], disk) && BufOk(buf'[i], disk');
    PinnedAfter(buf, buf', b);
    LockedAfter(buf, buf', b);
  }

  lemma PinnedAfter(buf: seq<Buf>, buf': seq<Buf>, b: nat)
    requires Unique(buf) && Unique(buf') && |buf| == |buf'| && b < NBUF
    requires forall i :: 0 <= i < NBUF ==>
               (buf[i].dirty ==> buf[i].dev == ROOTDEV) && (buf'[i].dirty ==> buf'[i].dev == ROOTDEV)
    requires forall i :: 0 <= i < NBUF && i != b ==> buf'[i].dirty == buf[i].dirty && buf'[i].blockno == buf[i].blockno
    ensures PinnedIn(buf') == PinnedIn(buf) - (if buf[b].dirty then {buf[b].blockno} else {})
                              + (if buf'[b].dirty then {buf'[b].blockno} else {})
  {
    forall x: nat
      ensures x in PinnedIn(buf') <==>
              (x in PinnedIn(buf) && !(buf[b].dirty && buf[b].blockno == x)) || (buf'[b].dirty && buf'[b].blockno == x)
    {
      if x in PinnedIn(buf') {
        var i: nat :| i < NBUF && buf'[i].dirty && buf'[i].blockno == x;
        assert i != b ==> buf[i].dirty && buf[i].blockno == x;
      }
      if x in PinnedIn(buf) {
        var i: nat :| i < NBUF && buf[i].dirty && buf[i].blockno == x;
        assert i != b ==> buf'[i].dirty && buf'[i].blockno == x;
      }
    }
  }

  lemma LockedAfter(buf: seq<Buf>, buf': seq<Buf>, b: nat)
    requires Unique(buf) && Unique(buf') && |buf| == |buf'| && b < NBUF
    requires forall i :: 0 <= i < NBUF && i != b ==>
               buf'[i].locked == buf[i].locked && buf'[i].blockno == buf[i].blockno && buf'[i].dev == buf[i].dev
    ensures LockedIn(buf') == LockedIn(buf) - (if buf[b].locked && buf[b].dev == ROOTDEV then {buf[b].blockno} else {})
                              + (if buf'[b].locked && buf'[b].dev == ROOTDEV then {buf'[b].blockno} else {})
  {
    forall x: nat
      ensures x in LockedIn(buf') <==>
              (x in LockedIn(buf) && !(buf[b].locked && buf[b].dev == ROOTDEV && buf[b].blockno == x))
              || (buf'[b].locked && buf'[b].dev == ROOTDEV && buf'[b].blockno == x)
    {
      if x in LockedIn(buf') {
        var i: nat :| i < NBUF && buf'[i].locked && buf'[i].dev == ROOTDEV && buf'[i].blockno == x;
        assert i != b ==> buf[i].locked && buf[i].dev == ROOTDEV && buf[i].blockno == x;
      }
      if x in LockedIn(buf) {
        var i: nat :| i < NBUF && buf[i].locked && buf[i].dev == ROOTDEV && buf[i].blockno == x;
        assert i != b ==> buf'[i].locked && buf'[i].dev == ROOTDEV && buf'[i].blockno == x;
      }
    }
  }

  /** Nobody has changed the block since it was read or written. */
  lemma CleanView(buf: seq<Buf>, disk: Disk, x: nat)
    requires CacheOk(buf, disk) && x < |disk| && x !in PinnedIn(buf) && x !in LockedIn(buf)
    ensures ViewOf(buf, disk, x) == disk[x]
  {
    match FindBuf(buf, x, NBUF) {
      case None =>
      case Some(i) => assert BufOk(buf[i], disk);
    }
  }

  /** The block of a buffer is pinned just when that buffer is dirty. */
  lemma CleanUnpinned(buf: seq<Buf>, disk: Disk, b: nat)
    requires CacheOk(buf, disk) && b < NBUF && buf[b].dev == ROOTDEV
    ensures buf[b].blockno in PinnedIn(buf) <==> buf[b].dirty
  {
    if buf[b].blockno in PinnedIn(buf) {
      var i: nat :| i < NBUF && buf[i].dirty && buf[i].blockno == buf[b].blockno;
      assert BufOk(buf[i], disk);
    }
  }

  // ---------------------------------------------------------------------------
  // When no buffer is left

  /** Why bget panics: no buffer holds the block, and none is free to be recycled. */
  ghost predicate NoBuffer(buf: seq<Buf>, blockno: nat) {
    NBUF <= |buf| && forall i :: 0 <= i < NBUF ==> !Holds(buf[i], ROOTDEV, blockno) && !Recyclable(buf[i])
  }

  /** The buffers that other processes use, and their blocks. */
  datatype Others = Others(bufs: set<nat>, blocks: set<nat>)

  const NOBODY := Others({}, {})

  /** This process has the buffers of `used`, and others use theirs, none of which is pinned. */
  ghost predicate InUse(buf: seq<Buf>, o: Others, used: set<nat>) {
    && NBUF <= |buf| && (forall i :: i in o.bufs ==> i < NBUF && i !in used)
    && forall i: nat :: i < NBUF ==>
         if i in o.bufs then buf[i].refcnt > 0 && !buf[i].dirty && buf[i].blockno in o.blocks
         else buf[i].refcnt == if i in used then 1 else 0
  }

  lemma UsedAfterRead(buf: seq<Buf>, buf': seq<Buf>, o: Others, used: set<nat>, b: nat, x: nat)
    requires InUse(buf, o, used) && |buf'| == |buf| && b < NBUF && b !in used && x !in o.blocks
    requires (forall i :: 0 <= i < NBUF && i != b ==> buf'[i] == buf[i]) && (buf[b].refcnt == 0 ==> buf'[b].refcnt == 1)
    requires buf[b].refcnt > 0 ==> buf[b].blockno == x
    ensures InUse(buf', o, used + {b})
  {
  }

  lemma UsedSame(buf: seq<Buf>, buf': seq<Buf>, o: Others, used: set<nat>, b: nat)
    requires InUse(buf, o, used) && |buf'| == |buf| && b < NBUF && b in used && buf'[b].refcnt == buf[b].refcnt
    requires forall i :: 0 <= i < NBUF && i != b ==> buf'[i] == buf[i]
    ensures InUse(buf', o, used)
  {
  }

  lemma UsedAfterRelease(buf: seq<Buf>, buf': seq<Buf>, o: Others, used: set<nat>, b: nat)
    requires InUse(buf, o, used) && b < NBUF && b in used && buf[b].refcnt > 0
    requires SameBufs(buf[b := buf[b].(locked := false, refcnt := buf[b].refcnt - 1)], buf')
    ensures InUse(buf', o, used - {b})
  {
  }

  /** The buffers among the first `n` that are dirty or used by others. */
  function BusyCount(buf: seq<Buf>, o: Others, n: nat): (r: nat)
    requires n <= |buf|
    ensures r <= n && (r == n <==> forall i: nat :: i < n ==> buf[i].dirty || i in o.bufs)
  {
    if n == 0 then 0 else BusyCount(buf, o, n - 1) + if buf[n - 1].dirty || n - 1 in o.bufs then 1 else 0
  }

  function OthersBelow(o: Others, n: nat): set<nat> {
    set i | i in o.bufs && i < n
  }

  ghost function PinnedFirst(buf: seq<Buf>, n: nat): set<nat>
    requires n <= |buf|
  {
    set i: nat | i < n && buf[i].dirty :: buf[i].blockno
  }

  /** Every dirty buffer pins a block of its own. */
  lemma {:induction false} PinnedCount(buf: seq<Buf>, o: Others, n: nat)
    requires Unique(buf) && n <= NBUF && forall i :: 0 <= i < NBUF && buf[i].dirty ==> buf[i].dev == ROOTDEV
    requires forall i :: i in o.bufs ==> i < NBUF && !buf[i].dirty
    ensures |PinnedFirst(buf, n)| + |OthersBelow(o, n)| == BusyCount(buf, o, n)
  {
    if n > 0 {
      hide PinnedFirst, Unique, OthersBelow;
      PinnedCount(buf, o, n - 1);
      OneMorePinned(buf, n - 1);
      OneMoreOther(o, n - 1);
    } else {
      assert PinnedFirst(buf, 0) == {} == OthersBelow(o, 0);
    }
  }

  lemma OneMorePinned(buf: seq<Buf>, n: nat)
    requires Unique(buf) && n < NBUF && forall i :: 0 <= i < NBUF && buf[i].dirty ==> buf[i].dev == ROOTDEV
    ensures |PinnedFirst(buf, n + 1)| == |PinnedFirst(buf, n)| + if buf[n].dirty then 1 else 0
  {
    forall x: nat
      ensures x in PinnedFirst(buf, n + 1) <==> x in PinnedFirst(buf, n) || (buf[n].dirty && buf[n].blockno == x)
    {
      if x in PinnedFirst(buf, n + 1) {
        var i: nat :| i < n + 1 && buf[i].dirty && buf[i].blockno == x;
        assert i < n ==> x in PinnedFirst(buf, n);
      }
    }
    assert buf[n].dirty ==> buf[n].blockno !in PinnedFirst(buf, n);
    assert PinnedFirst(buf, n + 1) == PinnedFirst(buf, n) + if buf[n].dirty then {buf[n].blockno} else {};
  }

  lemma OneMoreOther(o: Others, n: nat)
    ensures |OthersBelow(o, n + 1)| == |OthersBelow(o, n)| + if n in o.bufs then 1 else 0
  {
    assert OthersBelow(o, n + 1) == OthersBelow(o, n) + if n in o.bufs then {n} else {};
  }

  lemma {:induction false} AllButOne(buf: seq<Buf>, o: Others, n: nat, b: nat)
    requires n <= |buf| && forall i: nat :: i < n && i != b ==> buf[i].dirty || i in o.bufs
    ensures BusyCount(buf, o, n) >= n - 1
    ensures n <= b ==> BusyCount(buf, o, n) == n
  {
    if n > 0 {
      AllButOne(buf, o, n - 1, b);
    }
  }

  lemma PinnedBusy(buf: seq<Buf>, disk: Disk, o: Others, used: set<nat>)
    requires CacheOk(buf, disk) && InUse(buf, o, used)
    ensures |PinnedIn(buf)| + |o.bufs| == BusyCount(buf, o, NBUF)
  {
    assert forall i :: 0 <= i < NBUF ==> BufOk(buf[i], disk);
    PinnedCount(buf, o, NBUF);
    assert PinnedIn(buf) == PinnedFirst(buf, NBUF);
    assert o.bufs == OthersBelow(o, NBUF);
  }

  /**
   A process that uses no buffer yet: bget of a block that is neither pinned nor in use panics exactly
   when every buffer is dirty or used by others.
   */
  lemma FirstBuffer(buf: seq<Buf>, disk: Disk, o: Others, x: nat)
    requires CacheOk(buf, disk) && InUse(buf, o, {}) && x !in PinnedIn(buf) && x !in o.blocks
    ensures |PinnedIn(buf)| + |o.bufs| <= NBUF
    ensures NoBuffer(buf, x) <==> |PinnedIn(buf)| + |o.bufs| == NBUF
  {
    PinnedBusy(buf, disk, o, {});
    if forall i: nat :: i < NBUF ==> buf[i].dirty || i in o.bufs {
      assert forall i: nat :: i < NBUF && buf[i].dirty ==> buf[i].blockno in PinnedIn(buf);
    }
  }

  /** With one buffer in use, it panics only for a block that is not pinned, and when all others are taken. */
  lemma SecondBuffer(buf: seq<Buf>, disk: Disk, o: Others, b: nat, x: nat)
    requires CacheOk(buf, disk) && InUse(buf, o, {b}) && NoBuffer(buf, x)
    ensures x !in PinnedIn(buf) && |PinnedIn(buf)| + |o.bufs| >= NBUF - 1
  {
    PinnedBusy(buf, disk, o, {b});
    AllButOne(buf, o, NBUF, b);
    assert forall i :: 0 <= i < NBUF ==> BufOk(buf[i], disk);
  }

  /** bget keeps the cache in order: a block that was there, or a buffer that was free to be recycled. */
  lemma GotBuffer(buf: seq<Buf>, buf': seq<Buf>, lru: seq<nat>, disk: Disk, b: nat, dev: nat, blockno: nat)
    requires Linked(buf, lru) && CacheOk(buf, disk) && |buf'| == |buf| && b < NBUF
    requires if Holds(buf[b], dev, blockno) then buf' == buf[b := buf[b].(refcnt := buf[b].refcnt + 1, locked := true)]
             else
               && Recyclable(buf[b]) && (forall i :: 0 <= i < NBUF ==> !Holds(buf[i], dev, blockno))
               && buf' == buf[b := buf[b].(dev := dev, blockno := blockno, valid := false, dirty := false, refcnt := 1,
                                           locked := true)]
    ensures Linked(buf', lru) && CacheOk(buf', disk) && PinnedIn(buf') == PinnedIn(buf)
    ensures forall x: nat :: x < |disk| ==> ViewOf(buf', disk, x) == ViewOf(buf, disk, x)
  {
    LinksStay(buf, buf', lru);
    assert BufOk(buf[b], disk);
    forall i | 0 <= i < NBUF ensures BufOk(buf'[i], disk) { assert BufOk(buf[i], disk); }
    SetsAfter(buf, buf', disk, disk, b);
    ViewAfterGet(buf, buf', disk, b);
  }

  /** The caller has the buffer, with the contents of a block of the disk. */
  predicate Held(x: Buf, blockno: nat) {
    x.locked && x.valid && x.refcnt > 0 && Holds(x, ROOTDEV, blockno)
  }

  /** A buffer that was recycled was as good as its disk block. */
  lemma ViewAfterGet(buf: seq<Buf>, buf': seq<Buf>, disk: Disk, b: nat)
    requires CacheOk(buf, disk) && CacheOk(buf', disk) && |buf'| == |buf| && b < NBUF
    requires forall i :: 0 <= i < NBUF && i != b ==> buf'[i] == buf[i]
    requires if buf'[b].valid
             then buf[b].valid && buf'[b].data == buf[b].data && Holds(buf'[b], buf[b].dev, buf[b].blockno)
             else Recyclable(buf[b]) || !buf[b].valid
    ensures forall x: nat :: x < |disk| ==> ViewOf(buf', disk, x) == ViewOf(buf, disk, x)
  {
    forall x: nat | x < |disk|
      ensures ViewOf(buf', disk, x) == ViewOf(buf, disk, x)
    {
      assert BufOk(buf[b], disk) && BufOk(buf'[b], disk);
      SameFinder(buf, buf', x, b);
    }
  }

  /** Blocks that neither version of buffer `b` holds are found at the same place. */
  lemma SameFinder(buf: seq<Buf>, buf': seq<Buf>, x: nat, b: nat)
    requires Unique(buf) && Unique(buf') && |buf'| == |buf| && b < NBUF
    requires forall i :: 0 <= i < NBUF && i != b ==> buf'[i] == buf[i]
    ensures FindBuf(buf, x, NBUF) == FindBuf(buf', x, NBUF) || Holds(buf[b], ROOTDEV, x) || Holds(buf'[b], ROOTDEV, x)
  {
  }

  lemma ViewsStay(buf: seq<Buf>, buf': seq<Buf>, disk: Disk, b: nat)
    requires CacheOk(buf, disk) && |buf'| == |buf| && b < NBUF && Unique(buf')
    requires forall i :: 0 <= i < NBUF && i != b ==> buf'[i] == buf[i]
    requires buf'[b].dev == ROOTDEV && buf'[b].valid && buf'[b].blockno < |disk|
    requires buf'[b].data == ViewOf(buf, disk, buf'[b].blockno)
    requires Holds(buf[b], ROOTDEV, buf'[b].blockno) || Recyclable(buf[b])
    ensures forall x: nat :: x < |disk| ==> ViewOf(buf', disk, x) == ViewOf(buf, disk, x)
  {
    forall x: nat | x < |disk|
      ensures ViewOf(buf', disk, x) == ViewOf(buf, disk, x)
    {
      assert BufOk(buf[b], disk);
      SameFinder(buf, buf', x, b);
      ViewThrough(buf', disk, b);
    }
  }

  lemma ViewsChange(buf: seq<Buf>, buf': seq<Buf>, disk: Disk, b: nat)
    requires CacheOk(buf, disk) && |buf'| == |buf| && b < NBUF && Unique(buf')
    requires forall i :: 0 <= i < NBUF && i != b ==> buf'[i] == buf[i]
    requires buf[b].dev == buf'[b].dev == ROOTDEV && buf[b].blockno == buf'[b].blockno < |disk| && buf'[b].valid
    ensures forall x: nat :: x < |disk| ==>
              ViewOf(buf', disk, x) == if x == buf'[b].blockno then buf'[b].data else ViewOf(buf, disk, x)
  {
    forall x: nat | x < |disk|
      ensures ViewOf(buf', disk, x) == if x == buf'[b].blockno then buf'[b].data else ViewOf(buf, disk, x)
    {
      SameFinder(buf, buf', x, b);
      ViewThrough(buf', disk, b);
    }
  }

  /** Writing a buffer to its block changes nothing that `bread` shows. */
  lemma WriteThrough(buf: seq<Buf>, buf': seq<Buf>, disk: Disk, disk': Disk, b: nat)
    requires CacheOk(buf, disk) && b < NBUF && Held(buf[b], buf[b].blockno)
    requires buf' == buf[b := buf[b].(dirty := false)] && disk' == disk[buf[b].blockno := buf[b].data]
    ensures CacheOk(buf', disk')
    ensures forall x: nat :: x < |disk| ==> ViewOf(buf', disk', x) == ViewOf(buf, disk, x)
  {
    forall i | 0 <= i < NBUF
      ensures BufOk(buf'[i], disk')
    {
      assert BufOk(buf[i], disk) && BufOk(buf[b], disk);
    }
    forall x: nat | x < |disk|
      ensures ViewOf(buf', disk', x) == ViewOf(buf, disk, x)
    {
      SameFinder(buf, buf', x, b);
      ViewThrough(buf', disk', b);
      ViewThrough(buf, disk, b);
    }
  }

  lemma ReleasedOk(buf: seq<Buf>, unlocked: seq<Buf>, buf': seq<Buf>, disk: Disk, b: nat)
    requires CacheOk(buf, disk) && b < NBUF && buf[b].locked && buf[b].refcnt > 0
    requires buf[b].valid && !buf[b].dirty ==> buf[b].blockno < |disk| && buf[b].data == disk[buf[b].blockno]
    requires unlocked == buf[b := buf[b].(locked := false, refcnt := buf[b].refcnt - 1)] && SameBufs(unlocked, buf')
    ensures CacheOk(buf', disk)
    ensures forall x: nat :: x < |disk| ==> ViewOf(buf', disk, x) == ViewOf(buf, disk, x)
    ensures PinnedIn(buf') == PinnedIn(buf)
    ensures buf[b].dev == ROOTDEV ==> LockedIn(buf') == LockedIn(buf) - {buf[b].blockno}
  {
    forall i | 0 <= i < NBUF
      ensures BufOk(buf'[i], disk)
    {
      assert BufOk(buf[i], disk);
      assert buf'[i] == unlocked[i].(prev := buf'[i].prev, next := buf'[i].next);
    }
    forall x: nat | x < |disk|
      ensures ViewOf(buf', disk, x) == ViewOf(buf, disk, x)
    {
      FindSame(buf, buf', x, NBUF);
    }
    SetsAfter(buf, buf', disk, disk, b);
  }

  lemma {:induction false} FindSame(buf: seq<Buf>, buf': seq<Buf>, x: nat, n: nat)
    requires n <= NBUF <= |buf| == |buf'|
    requires forall i :: 0 <= i < NBUF ==> buf'[i].dev == buf[i].dev && buf'[i].blockno == buf[i].blockno
    ensures FindBuf(buf', x, n) == FindBuf(buf, x, n)
  {
    if n > 0 {
      FindSame(buf, buf', x, n - 1);
    }
  }

  /** What holds of no buffer on the list holds of no buffer. */
  lemma NoneHolds(buf: seq<Buf>, lru: seq<nat>, dev: nat, blockno: nat)
    requires Linked(buf, lru) && |lru| == NBUF
    requires forall k :: 0 <= k < NBUF ==> !Holds(buf[lru[k]], dev, blockno)
    ensures forall i :: 0 <= i < NBUF ==> !Holds(buf[i], dev, blockno)
  {
    forall i | 0 <= i < NBUF
      ensures !Holds(buf[i], dev, blockno)
    {
      AllSeen(lru, NBUF, i);
    }
  }

  lemma NoneRecyclable(buf: seq<Buf>, lru: seq<nat>)
    requires Linked(buf, lru) && |lru| == NBUF
    requires forall k :: 0 <= k < NBUF ==> !Recyclable(buf[lru[k]])
    ensures forall i :: 0 <= i < NBUF ==> !Recyclable(buf[i])
  {
    forall i | 0 <= i < NBUF
      ensures !Recyclable(buf[i])
    {
      AllSeen(lru, NBUF, i);
    }
  }

  /** Changing a buffer but not its links keeps the list. */
  lemma LinksStay(buf: seq<Buf>, buf': seq<Buf>, lru: seq<nat>)
    requires Linked(buf, lru) && |buf'| == |buf|
    requires forall i :: 0 <= i < |buf| ==> buf'[i].prev == buf[i].prev && buf'[i].next == buf[i].next
    ensures Linked(buf', lru)
  {
    forall i | 0 <= i < |lru| + 1
      ensures LinkAt(buf', Ring(lru), i)
    {
      assert LinkAt(buf, Ring(lru), i);
    }
  }

  class Cache {
    var buf: seq<Buf>
    var disk: Disk
    /** The buffers from the most to the least recently used one. */
    ghost var lru: seq<nat>
    /** All disk writes so far. */
    ghost var writes: seq<Write>
    /** Every block of the disk as `bread` gives it. */
    ghost var view: seq<Block>
    /** The pinned blocks, and those that somebody holds. */
    ghost var pinned: set<nat>
    ghost var held: set<nat>

    ghost predicate Valid()
      reads this
    {
      && Linked(buf, lru) && |lru| == NBUF && CacheOk(buf, disk)
      && |view| == |disk| && (forall x: nat :: x < |disk| ==> view[x] == ViewOf(buf, disk, x))
      && pinned == PinnedIn(buf) && held == LockedIn(buf)
    }

    /** binit: all buffers empty, on device 0, on one list. */
    constructor (d: Disk)
      ensures Valid() && disk == d && writes == [] && view == d && pinned == {} && held == {}
      ensures forall i :: 0 <= i < NBUF ==> Recyclable(buf[i]) && !buf[i].valid && !buf[i].locked && buf[i].dev == 0
      ensures forall i :: 0 <= i < NBUF ==> lru[i] == NBUF - 1 - i
    {
      disk := d;
      writes := [];
      buf := seq(NBUF + 1, _ => Buf(0, 0, false, false, false, 0, HEAD, HEAD, ZERO_BLOCK));
      lru := [];
      view, pinned, held := d, {}, {};
      new;
      var b := 0;
      while b < NBUF
        invariant 0 <= b <= NBUF
        invariant Linked(buf, lru) && |lru| == b
        invariant forall i :: 0 <= i < b ==> lru[i] == b - 1 - i
        invariant forall i :: 0 <= i < NBUF ==> Recyclable(buf[i]) && !buf[i].valid && !buf[i].locked && buf[i].dev == 0
        invariant disk == d && writes == [] && view == d && pinned == {} && held == {}
      {
        LinkFrontKeepsList(buf, lru, b);
        buf := buf[b := buf[b].(next := buf[HEAD].next, prev := HEAD)];
        buf := buf[buf[HEAD].next := buf[buf[HEAD].next].(prev := b)];
        buf := buf[HEAD := buf[HEAD].(next := b)];
        lru := [b] + lru;
        b := b + 1;
      }
    }

    /**
     bget: the buffer that holds the block, or the least recently used one that is free to be
     recycled. None: there is no such buffer, and the kernel panics.
     */
    method BGet(dev: nat, blockno: nat) returns (r: Option<nat>)
      requires Valid()
      requires forall i :: 0 <= i < NBUF && Holds(buf[i], dev, blockno) ==> !buf[i].locked
      modifies this`buf, this`held
      ensures Valid() && disk == old(disk) && lru == old(lru) && writes == old(writes)
      ensures view == old(view) && pinned == old(pinned)
      ensures r.None? ==> buf == old(buf) && forall i :: 0 <= i < NBUF ==>
                !Holds(buf[i], dev, blockno) && !Recyclable(buf[i])
      ensures r.Some? ==>
                var b := r.value;
                && b < NBUF
                && (if Holds(old(buf)[b], dev, blockno)
                    then buf == old(buf)[b := old(buf)[b].(refcnt := old(buf)[b].refcnt + 1, locked := true)]
                    else
                      && Recyclable(old(buf)[b])
                      && (forall i :: 0 <= i < NBUF ==> !Holds(old(buf)[i], dev, blockno))
                      && (forall i, j :: 0 <= i < j < NBUF && lru[i] == b ==> !Recyclable(old(buf)[lru[j]]))
                      && buf == old(buf)[b := old(buf)[b].(dev := dev, blockno := blockno, valid := false,
                                                           dirty := false, refcnt := 1, locked := true)])
    {
      ghost var r0 := Ring(lru);
      var b := buf[HEAD].next;
      ghost var k := 0;
      assert LinkAt(buf, r0, 0);
      while b != HEAD
        invariant buf == old(buf) && held == old(held)
        invariant 0 <= k <= NBUF && b == r0[k + 1]
        invariant forall i :: 0 <= i < k ==> !Holds(buf[lru[i]], dev, blockno)
        decreases NBUF - k
      {
        assert b == lru[k];
        if Holds(buf[b], dev, blockno) {
          buf := buf[b := buf[b].(refcnt := buf[b].refcnt + 1, locked := true)];
          held := LockedIn(buf);
          GotBuffer(old(buf), buf, lru, disk, b, dev, blockno);
          return Some(b);
        }
        assert LinkAt(buf, r0, k + 1);
        b := buf[b].next;
        k := k + 1;
      }
      NoneHolds(buf, lru, dev, blockno);
      assert LinkAt(buf, r0, NBUF);
      b := buf[HEAD].prev;
      k := NBUF;
      while b != HEAD
        invariant buf == old(buf) && held == old(held)
        invariant 0 <= k <= NBUF && b == r0[k]
        invariant forall i :: k <= i < NBUF ==> !Recyclable(buf[lru[i]])
        decreases k
      {
        assert b == lru[k - 1];
        if Recyclable(buf[b]) {
          buf := buf[b := buf[b].(dev := dev, blockno := blockno, valid := false, dirty := false, refcnt := 1,
                                  locked := true)];
          held := LockedIn(buf);
          GotBuffer(old(buf), buf, lru, disk, b, dev, blockno);
          return Some(b);
        }
        assert LinkAt(buf, r0, k - 1);
        b := buf[b].prev;
        k := k - 1;
      }
      NoneRecyclable(buf, lru);
      return None;
    }

    /**
     bread: the locked buffer with the contents of the block. None: no buffer is free, or the block
     is not on the disk, and the kernel panics.
     */
    method BRead(blockno: nat) returns (r: Option<nat>)
      requires Valid() && blockno !in held
      modifies this`buf, this`held
      ensures Valid()
      ensures r.None? <==> blockno >= |disk| || NoBuffer(old(buf), blockno)
      ensures r.Some? ==>
                var b := r.value;
                && |buf| == |old(buf)| == NBUF + 1 && b < NBUF && blockno < |disk| && Held(buf[b], blockno) &&
                   buf[b].data == view[blockno]
                && (forall i :: 0 <= i < NBUF && i != b ==> buf[i] == old(buf)[i])
                && !old(buf)[b].locked && (old(buf)[b].refcnt == 0 ==> buf[b].refcnt == 1)
                && (old(buf)[b].refcnt > 0 ==> old(buf)[b].blockno == blockno)
                && held == old(held) + {blockno}
    {
      assert forall i :: 0 <= i < NBUF && Holds(buf[i], ROOTDEV, blockno) ==> !buf[i].locked;
      r := BGet(ROOTDEV, blockno);
      if r.None? {
        return;
      }
      var b := r.value;
      assert BufOk(old(buf)[b], disk);
      SetsAfter(old(buf), buf, disk, disk, b);
      if !buf[b].valid {
        if blockno >= |disk| {
          return None;
        }
        IdeRead(b);
      } else {
        ViewThrough(buf, disk, b);
      }
    }

    /** iderw of a buffer that is not valid: read the block from the disk. */
    method IdeRead(b: nat)
      requires Valid() && b < NBUF && buf[b].locked && !buf[b].valid && buf[b].dev == ROOTDEV && buf[b].blockno < |disk|
      modifies this`buf
      ensures Valid()
      ensures buf == old(buf)[b := old(buf)[b].(data := disk[old(buf)[b].blockno], valid := true)]
      ensures buf[b].data == view[buf[b].blockno]
    {
      ViewThrough(buf, disk, b);
      assert BufOk(buf[b], disk);
      buf := buf[b := buf[b].(data := disk[buf[b].blockno], valid := true)];
      LinksStay(old(buf), buf, lru);
      ViewsStay(old(buf), buf, disk, b);
      SetsAfter(old(buf), buf, disk, disk, b);
    }

    /** memmove into a locked buffer. */
    method Modify(b: nat, data: Block)
      requires Valid() && b < NBUF && Held(buf[b], buf[b].blockno)
      modifies this`buf, this`view
      ensures Valid()
      ensures buf == old(buf)[b := old(buf)[b].(data := data)]
      ensures buf[b].blockno < |view| && view == old(view)[buf[b].blockno := data]
    {
      assert BufOk(buf[b], disk);
      buf := buf[b := buf[b].(data := data)];
      view := view[buf[b].blockno := data];
      LinksStay(old(buf), buf, lru);
      ViewsChange(old(buf), buf, disk, b);
      SetsAfter(old(buf), buf, disk, disk, b);
    }

    /** What log_write does to the buffer: pin it. */
    method Pin(b: nat)
      requires Valid() && b < NBUF && Held(buf[b], buf[b].blockno)
      modifies this`buf, this`pinned
      ensures Valid()
      ensures buf == old(buf)[b := old(buf)[b].(dirty := true)]
      ensures pinned == old(pinned) + {buf[b].blockno}
    {
      assert BufOk(buf[b], disk);
      ViewThrough(buf, disk, b);
      buf := buf[b := buf[b].(dirty := true)];
      LinksStay(old(buf), buf, lru);
      ViewsStay(old(buf), buf, disk, b);
      SetsAfter(old(buf), buf, disk, disk, b);
      pinned := pinned + {buf[b].blockno};
    }

    /** bwrite: one atomic block write. */
    method BWrite(b: nat)
      requires Valid() && b < NBUF && Held(buf[b], buf[b].blockno)
      modifies this`buf, this`disk, this`writes, this`pinned
      ensures Valid()
      ensures buf == old(buf)[b := old(buf)[b].(dirty := false)]
      ensures buf[b].blockno < |old(disk)| && disk == old(disk)[buf[b].blockno := buf[b].data]
      ensures writes == old(writes) + [Write(buf[b].blockno, buf[b].data)]
      ensures pinned == old(pinned) - {buf[b].blockno}
    {
      assert BufOk(buf[b], disk);
      buf := buf[b := buf[b].(dirty := true)];
      buf := buf[b := buf[b].(dirty := false)];
      disk := disk[buf[b].blockno := buf[b].data];
      writes := writes + [Write(buf[b].blockno, buf[b].data)];
      pinned := pinned - {buf[b].blockno};
      LinksStay(old(buf), buf, lru);
      WriteThrough(old(buf), buf, old(disk), disk, b);
      SetsAfter(old(buf), buf, old(disk), disk, b);
      CleanUnpinned(old(buf), old(disk), b);
    }

    /** The last part of brelse: nobody is waiting, so the buffer moves to the head of the list. */
    method Relink(b: nat, ghost k: nat)
      requires Linked(buf, lru) && k < |lru| && lru[k] == b
      modifies this`buf, this`lru
      ensures lru == [b] + Without(old(lru), k)
      ensures Linked(buf, lru) && SameBufs(old(buf), buf)
    {
      MovedToFront(buf, lru, k);
      NotItsOwn(buf, lru, k);
      Assignments(buf, b);
      buf := buf[buf[b].next := buf[buf[b].next].(prev := buf[b].prev)];
      buf := buf[buf[b].prev := buf[buf[b].prev].(next := buf[b].next)];
      buf := buf[b := buf[b].(next := buf[HEAD].next)];
      buf := buf[b := buf[b].(prev := HEAD)];
      buf := buf[buf[HEAD].next := buf[buf[HEAD].next].(prev := b)];
      buf := buf[HEAD := buf[HEAD].(next := b)];
      lru := [b] + Without(lru, k);
    }

    /** brelse: unlock, and if nobody else wants the buffer make it the most recently used one. */
    method BRelse(b: nat)
      requires Valid() && b < NBUF && buf[b].locked && buf[b].dev == ROOTDEV
      requires buf[b].valid && !buf[b].dirty ==> buf[b].data == disk[buf[b].blockno]
      modifies this`buf, this`lru, this`held
      ensures Valid()
      ensures SameBufs(old(buf)[b := old(buf)[b].(locked := false, refcnt := old(buf)[b].refcnt - 1)], buf)
      ensures exists k :: 0 <= k < NBUF && old(lru)[k] == b &&
                          lru == if old(buf)[b].refcnt == 1 then [b] + Without(old(lru), k) else old(lru)
      ensures held == old(held) - {old(buf)[b].blockno}
    {
      AllSeen(lru, NBUF, b);
      ghost var k :| 0 <= k < NBUF && lru[k] == b;
      assert BufOk(buf[b], disk);
      held := held - {buf[b].blockno};
      buf := buf[b := buf[b].(locked := false)];
      buf := buf[b := buf[b].(refcnt := buf[b].refcnt - 1)];
      LinksStay(old(buf), buf, lru);
      ghost var unlocked := buf;
      if buf[b].refcnt == 0 {
        Relink(b, k);
      }
      ReleasedOk(old(buf), unlocked, buf, disk, b);
    }
  }
}

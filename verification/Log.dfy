/**
 The log over the buffer cache: every method makes exactly the disk writes that LogDisk says. Only
 a commit can panic for want of a buffer, exactly when the logged blocks and the buffers that other
 processes use are as many as there are buffers, and then before it has written anything.

 The methods are those of one process; others may use buffers all the while, but not for the blocks
 that it asks for. How several operations come together in one commit is the subject of LogProtocol.
 */
module LogCode {
  import opened Wrappers
  import opened Blocks
  import opened LogDisk
  import opened BufferCache
  import opened Counting
  import opened LogProtocol

  /** The contents of some blocks. */
  function Pick(view: seq<Block>, blocks: seq<Uint32>): (r: seq<Block>)
    requires forall i :: 0 <= i < |blocks| ==> blocks[i] < |view|
    ensures |r| == |blocks| && forall i :: 0 <= i < |blocks| ==> r[i] == view[blocks[i]]
  {
    if blocks == [] then [] else Pick(view, blocks[..|blocks| - 1]) + [view[blocks[|blocks| - 1]]]
  }

  /** How far a recovery has come after `k` installs, and what its last write is. */
  lemma RecoveryStages(lay: Layout, d: Disk, k: nat)
    requires LogOk(lay, d) && k <= HeaderN(d[lay.start])
    ensures var n, all := HeaderN(d[lay.start]), RecoveryWrites(lay, d);
            var installs := HomeWrites(Numbers(d[lay.start]), LogDisk.LogData(lay, d, n), k);
            && (forall i :: 0 <= i < k ==> installs[i].blockno < |d|)
            && Apply(d, installs)[lay.start] == d[lay.start]
            && (k == n ==> all == installs + [Write(lay.start, PutHeader(d[lay.start], []))])
  {
    hide Apply, HomeWrites, PutHeader, Word, FirstNumbers;
    assert InLog(lay, lay.start);
    HomeWritesKeep(d, Numbers(d[lay.start]), LogDisk.LogData(lay, d, HeaderN(d[lay.start])), k, lay.start);
  }

  function Blocked(numbers: seq<Uint32>): set<nat> {
    set i | 0 <= i < |numbers| :: numbers[i]
  }

  lemma NoneBlocked(numbers: seq<Uint32>)
    ensures Blocked(numbers[..0]) == {}
  {
  }

  lemma BlockedGrows(numbers: seq<Uint32>, k: nat)
    requires k < |numbers|
    ensures Blocked(numbers[..k + 1]) == Blocked(numbers[..k]) + {numbers[k]}
  {
    assert numbers[..k + 1] == numbers[..k] + [numbers[k]];
    forall b: nat
      ensures b in Blocked(numbers[..k + 1]) <==> b in Blocked(numbers[..k]) || b == numbers[k]
    {
      if b in Blocked(numbers[..k]) {
        var i :| 0 <= i < k && numbers[..k][i] == b;
        assert numbers[..k + 1][i] == b;
      }
      assert numbers[..k + 1][k] == numbers[k];
    }
  }

  lemma {:induction false} BlockedSize(numbers: seq<Uint32>)
    requires forall i, j :: 0 <= i < j < |numbers| ==> numbers[i] != numbers[j]
    ensures |Blocked(numbers)| == |numbers|
  {
    if numbers != [] {
      var n := |numbers| - 1;
      BlockedSize(numbers[..n]);
      BlockedGrows(numbers, n);
      assert numbers[..n + 1] == numbers;
    } else {
      assert Blocked(numbers) == {};
    }
  }

  /** With `r` buffers in use by others there are enough for install_trans: its blocks are pinned, or few are. */
  ghost predicate Roomy(pinned: set<nat>, numbers: seq<Uint32>, r: nat) {
    |pinned| + r + 1 < NBUF || (|pinned| + r < NBUF && forall i :: 0 <= i < |numbers| ==> numbers[i] in pinned)
  }

  /** That holds for each block in turn: the next one to go home is still pinned. */
  lemma NextFits(pinned: set<nat>, numbers: seq<Uint32>, k: nat, r: nat)
    requires Roomy(pinned, numbers, r) && k < |numbers| && forall i, j :: 0 <= i < j < |numbers| ==>
               numbers[i] != numbers[j]
    ensures var now := pinned - Blocked(numbers[..k]);
            |now| + r + 1 < NBUF || (numbers[k] in now && |now| + r < NBUF)
  {
    Smaller(pinned - Blocked(numbers[..k]), pinned);
  }

  /** What the loop of install_trans does next. */
  lemma InstallNext(lay: Layout, d: Disk, numbers: seq<Uint32>, data: seq<Block>, tail: nat)
    requires Fits(lay, d) && |numbers| == |data| <= Capacity(lay) && tail < |data| &&
             data == LogDisk.LogData(lay, d, |data|)
    requires forall i :: 0 <= i < |numbers| ==> numbers[i] < |d| && !InLog(lay, numbers[i])
    ensures HomeWrites(numbers, data, tail + 1) == HomeWrites(numbers, data, tail) + [Write(numbers[tail], data[tail])]
    ensures Apply(d, HomeWrites(numbers, data, tail))[lay.start + 1 + tail] == data[tail]
    ensures Blocked(numbers[..tail + 1]) == Blocked(numbers[..tail]) + {numbers[tail]}
  {
    BlockedGrows(numbers, tail);
    LogIsKept(lay, d, numbers, data, tail);
  }

  /** What the loop of write_log does next. */
  lemma LogNext(lay: Layout, v: seq<Block>, data: seq<Block>, tail: nat, b: nat) returns (next: seq<Write>)
    requires Fits(lay, v) && tail < |data| < lay.size && b < |v| && !InLog(lay, b)
    ensures next == LogWrites(lay, data, tail + 1) ==
              LogWrites(lay, data, tail) + [Write(lay.start + 1 + tail, data[tail])]
    ensures Apply(v, LogWrites(lay, data, tail))[b] == v[b]
  {
    AfterLogWrites(lay, v, data, tail, b);
    hide Apply, Fits, InLog;
    next := LogWrites(lay, data, tail + 1);
  }

  /** Installing does not touch the log it reads from. */
  lemma LogIsKept(lay: Layout, d: Disk, numbers: seq<Uint32>, data: seq<Block>, tail: nat)
    requires Fits(lay, d) && |numbers| == |data| <= Capacity(lay) && tail < |data| &&
             data == LogDisk.LogData(lay, d, |data|)
    requires forall i :: 0 <= i < |numbers| ==> numbers[i] < |d| && !InLog(lay, numbers[i])
    ensures Apply(d, HomeWrites(numbers, data, tail))[lay.start + 1 + tail] == data[tail]
  {
    hide Apply, HomeWrites;
    assert InLog(lay, lay.start + 1 + tail);
    HomeWritesKeep(d, numbers, data, tail, lay.start + 1 + tail);
  }

  /** The writes that a commit sets out to make. */
  ghost function Planned(lay: Layout, d: Disk, blocks: seq<Uint32>, view: seq<Block>): seq<Write>
    requires Fits(lay, d) && |blocks| <= LOGSIZE && forall i :: 0 <= i < |blocks| ==> blocks[i] < |view|
  {
    if blocks == [] then [] else CommitWrites(lay, d, blocks, Pick(view, blocks))
  }

  /** Where a commit is when the log is written and when the header is. */
  lemma CommitMiddle(lay: Layout, d: Disk, blocks: seq<Uint32>, data: seq<Block>)
    requires TransactionOk(lay, d, blocks, data)
    ensures var ws, hw := LogWrites(lay, data, |data|), Write(lay.start, PutHeader(d[lay.start], blocks));
            && (forall i :: 0 <= i < |ws| ==> ws[i].blockno < |d|)
            && Apply(d, ws)[lay.start] == d[lay.start]
            && Apply(d, ws + [hw]) == Committed(lay, d, blocks, data)
            && LogDisk.LogData(lay, Committed(lay, d, blocks, data), |data|) == data
  {
    AfterLogWrites(lay, d, data, |data|, lay.start);
    ApplyOne(d, LogWrites(lay, data, |data|), Write(lay.start, PutHeader(d[lay.start], blocks)));
    CommittedMeans(lay, d, blocks, data);
  }

  /** Where a commit is when it has brought all blocks home. */
  lemma CommitLate(lay: Layout, d: Disk, blocks: seq<Uint32>, data: seq<Block>)
    requires TransactionOk(lay, d, blocks, data)
    ensures var hw := Write(lay.start, PutHeader(d[lay.start], blocks));
            CommitWrites(lay, d, blocks, data) ==
            LogWrites(lay, data, |data|) + [hw] + HomeWrites(blocks, data,
                |data|) + [Write(lay.start, PutHeader(hw.data, []))]
    ensures Apply(Committed(lay, d, blocks, data), HomeWrites(blocks, data, |data|))[lay.start] ==
              PutHeader(d[lay.start], blocks)
  {
    assert InLog(lay, lay.start);
    HomeWritesKeep(Committed(lay, d, blocks, data), blocks, data, |data|, lay.start);
  }

  /** To the file system a commit changes nothing. */
  lemma CommitIsSilent(lay: Layout, d: Disk, v: seq<Block>, blocks: seq<Uint32>, data: seq<Block>, x: nat)
    requires TransactionOk(lay, d, blocks, data) && |v| == |d| && x < |v| && !InLog(lay, x)
    requires forall i :: 0 <= i < |blocks| ==> data[i] == v[blocks[i]]
    ensures forall i :: 0 <= i < 2 * |blocks| + 2 ==> CommitWrites(lay, d, blocks, data)[i].blockno < |v|
    ensures Apply(v, CommitWrites(lay, d, blocks, data))[x] == v[x]
  {
    hide Apply, HomeWrites, LogWrites, PutHeader;
    var header := PutHeader(d[lay.start], blocks);
    var ws := LogWrites(lay, data, |data|);
    var v1 := Apply(v, ws);
    ApplyOne(v, ws, Write(lay.start, header));
    var v2 := v1[lay.start := header];
    forall b: nat | b < |v| && !InLog(lay, b)
      ensures v2[b] == v[b]
    {
      AfterLogWrites(lay, v, data, |data|, b);
    }
    SameContents(v2, blocks, data, |data|);
    ApplyAppend(v, ws + [Write(lay.start, header)], HomeWrites(blocks, data, |data|));
    ApplyOne(v, ws + [Write(lay.start, header)] + HomeWrites(blocks, data, |data|),
             Write(lay.start, PutHeader(header, [])));
  }

  lemma {:induction false} SameContents(v: seq<Block>, blocks: seq<Uint32>, data: seq<Block>, k: nat)
    requires k <= |data| == |blocks| && forall i :: 0 <= i < |blocks| ==> blocks[i] < |v| && data[i] == v[blocks[i]]
    ensures Apply(v, HomeWrites(blocks, data, k)) == v
  {
    if k > 0 {
      SameContents(v, blocks, data, k - 1);
      assert HomeWrites(blocks, data, k)[..k - 1] == HomeWrites(blocks, data, k - 1);
    }
  }

  /** A state of the protocol as the code has it: the header in memory, and the pinned buffers. */
  ghost predicate Represents(s: State, disk: Disk, view: seq<Block>, logged: seq<Uint32>, pinned: set<nat>) {
    && s.disk == disk && s.lh == logged && |view| == |disk|
    && (forall b: nat :: b in s.cache <==> b in pinned)
    && (forall b: nat :: b in pinned ==> b < |view| && s.cache[b] == view[b])
    && pinned == Blocked(logged)
  }

  /** What the code writes in a commit is what the protocol plans, and what it reads is what the protocol shows. */
  lemma CodePlans(lay: Layout, s: State, disk: Disk, view: seq<Block>, logged: seq<Uint32>, pinned: set<nat>)
    requires Represents(s, disk, view, logged, pinned) && Fits(lay, disk) && |logged| <= LOGSIZE
    ensures forall i :: 0 <= i < |logged| ==> logged[i] < |view|
    ensures MayPlan(lay, s) && Plan(lay, s) == Planned(lay, disk, logged, view)
    ensures forall b: nat :: b in pinned ==> View(s, b) == view[b]
  {
    forall i | 0 <= i < |logged|
      ensures logged[i] in pinned
    {
      assert logged[i] in Blocked(logged);
    }
    assert Contents(s) == Pick(view, logged);
  }

  /** log_write of a home block is the step of the protocol, and it keeps what a commit needs. */
  lemma CodeLogs(lay: Layout, s: State, i: nat, disk: Disk, view: seq<Block>, logged: seq<Uint32>, pinned: set<nat>,
                 b: Uint32, data: Block)
    requires Represents(s, disk, view, logged, pinned) && i < |s.active| && b < |view|
    ensures Represents(LogProtocol.Log(s, i, b, data), disk, view[b := data], Absorb(logged, b), pinned + {b})
    ensures (forall j, k :: 0 <= j < k < |logged| ==> logged[j] != logged[k]) ==>
              forall j, k :: 0 <= j < k < |Absorb(logged, b)| ==> Absorb(logged, b)[j] != Absorb(logged, b)[k]
  {
    if Index(logged, b).None? {
      assert Absorb(logged, b)[..|logged|] == logged && Absorb(logged, b)[..|logged| + 1] == Absorb(logged, b);
      BlockedGrows(Absorb(logged, b), |logged|);
    } else {
      assert logged[Index(logged, b).value] in Blocked(logged);
    }
  }

  /**
   Power fails after any number of the writes of `Commit`, and in any number of recoveries after
   that. A recovery that runs to its end then gives either the disk as it was before the commit, or
   every block as the file system saw it in the cache.
   */
  lemma CommitSurvives(lay: Layout, d: Disk, view: seq<Block>, logged: seq<Uint32>, k: nat, cuts: seq<nat>)
    requires LogOk(lay, d) && HeaderN(d[lay.start]) == 0 && |view| == |d| && 0 < |logged| <= Capacity(lay)
    requires forall i :: 0 <= i < |logged| ==> logged[i] < |view| && IsHome(lay, d, logged[i])
    requires forall i, j :: 0 <= i < j < |logged| ==> logged[i] != logged[j]
    requires forall b: nat :: IsHome(lay, d, b) && Index(logged, b).None? ==> view[b] == d[b]
    requires k <= |Planned(lay, d, logged, view)|
    ensures forall i :: 0 <= i < k ==> Planned(lay, d, logged, view)[i].blockno < |d|
    ensures var d1 := Apply(d, Planned(lay, d, logged, view)[..k]);
            && LogOk(lay, d1)
            && var r := Recovered(lay, Crashed(lay, d1, cuts));
               && HeaderN(r[lay.start]) == 0
               && forall b: nat :: IsHome(lay, d, b) ==> r[b] == if k <= |logged| then d[b] else view[b]
  {
    hide Apply, Word, PutHeader, CommitWrites, Updated, Crashed, Recovered, FirstNumbers;
    var data := Pick(view, logged);
    CrashAtomicity(lay, d, logged, data, k, cuts);
    forall b: nat | IsHome(lay, d, b)
      ensures Updated(d, logged, data, b) == view[b]
    {
      PickedOrSame(lay, d, view, logged, b);
    }
  }

  lemma PickedOrSame(lay: Layout, d: Disk, view: seq<Block>, logged: seq<Uint32>, b: nat)
    requires |view| == |d| && IsHome(lay, d, b) && (Index(logged, b).None? ==> view[b] == d[b])
    requires forall i :: 0 <= i < |logged| ==> logged[i] < |view|
    ensures Updated(d, logged, Pick(view, logged), b) == view[b]
  {
  }

  lemma WroteThen(d: Disk, w: seq<Write>, ws: seq<Write>, d1: Disk, w1: seq<Write>, more: seq<Write>, d2: Disk,
                  w2: seq<Write>)
    requires Wrote(d, w, ws, d1, w1) && Wrote(d1, w1, more, d2, w2)
    ensures Wrote(d, w, ws + more, d2, w2)
  {
    ApplyAppend(d, ws, more);
  }

  /** The writes `ws` have been made since the disk was `d` and the writes were `w`. */
  ghost predicate Wrote(d: Disk, w: seq<Write>, ws: seq<Write>, disk: Disk, writes: seq<Write>) {
    && (forall i :: 0 <= i < |ws| ==> ws[i].blockno < |d|)
    && disk == Apply(d, ws) && writes == w + ws
  }

  lemma DiskIs(d: Disk, w: seq<Write>, ws: seq<Write>, disk: Disk, writes: seq<Write>)
    requires Wrote(d, w, ws, disk, writes)
    ensures forall i :: 0 <= i < |ws| ==> ws[i].blockno < |d|
    ensures disk == Apply(d, ws) && |disk| == |d|
  {
  }

  lemma NothingWritten(d: Disk, w: seq<Write>)
    ensures Wrote(d, w, [], d, w)
  {
    assert w + [] == w;
  }

  lemma OneMoreWrite(d: Disk, w: seq<Write>, ws: seq<Write>, disk: Disk, writes: seq<Write>, write: Write)
    requires Wrote(d, w, ws, disk, writes) && write.blockno < |d|
    ensures write.blockno < |disk| && Wrote(d, w, ws + [write], disk[write.blockno := write.data], writes + [write])
  {
    ApplyOne(d, ws, write);
  }

  class Log {
    const cache: Cache
    /** log.start and log.size. */
    const lay: Layout
    var outstanding: int
    var committing: bool
    var lhN: nat
    /** The block numbers of the header; those from `lhN` on are stale. */
    var lhBlock: seq<Uint32>
    /** What other processes use while a method runs. */
    ghost var others: Others

    ghost predicate Valid()
      reads this, cache
    {
      && cache.Valid() && Fits(lay, cache.disk) && |cache.view| == |cache.disk|
      && |lhBlock| == LOGSIZE && lhN <= Capacity(lay)
    }

    /** The block numbers of the current transaction. */
    function Logged(): seq<Uint32>
      reads this
      requires lhN <= |lhBlock|
    {
      lhBlock[..lhN]
    }

    /**
     The blocks of the transaction are home blocks of a disk of `n` blocks, none is there twice, and
     nobody else uses one.
     */
    ghost predicate Sane(n: nat)
      reads this
      requires lhN <= |lhBlock|
    {
      && (forall i :: 0 <= i < lhN ==> lhBlock[i] < n && !InLog(lay, lhBlock[i]) && lhBlock[i] !in others.blocks)
      && (forall i, j :: 0 <= i < j < lhN ==> lhBlock[i] != lhBlock[j])
    }

    /** This process uses no buffer, others neither pinned nor log blocks, and no log block is pinned. */
    ghost predicate Quiet()
      reads this, cache
    {
      && InUse(cache.buf, others, {}) && cache.held <= others.blocks
      && (forall b :: b in cache.pinned ==> b !in others.blocks)
      && (forall b: nat :: InLog(lay, b) ==> b !in cache.pinned && b !in others.blocks)
    }

    /** There is a buffer left when so many blocks are pinned. */
    ghost predicate BufferLeft(n: nat)
      reads this
    {
      n + |others.bufs| < NBUF
    }

    constructor (cache: Cache, lay: Layout)
      requires cache.Valid() && Fits(lay, cache.disk)
      ensures this.cache == cache && this.lay == lay
      ensures Valid() && lhN == 0 && outstanding == 0 && !committing && others == NOBODY
    {
      this.cache, this.lay := cache, lay;
      outstanding, committing, lhN := 0, false, 0;
      lhBlock, others := seq(LOGSIZE, _ => 0), NOBODY;
    }

    // -------------------------------------------------------------------------
    // One block at a time

    /** A block that is not pinned and not held is seen as it is on the disk. */
    lemma CleanBlock(x: nat)
      requires cache.Valid() && x < |cache.disk| && x !in cache.pinned && x !in cache.held
      ensures |cache.view| == |cache.disk| && cache.view[x] == cache.disk[x]
    {
      CleanView(cache.buf, cache.disk, x);
    }

    lemma CacheFacts()
      requires cache.Valid()
      ensures |cache.buf| == NBUF + 1 && |cache.view| == |cache.disk|
      ensures CacheOk(cache.buf, cache.disk) && cache.pinned == PinnedIn(cache.buf)
    {
    }

    /** Two locked buffers, first one block and then the other. None: there are not enough, and the kernel panics. */
    method ReadTwo(first: nat, second: nat) returns (r: Option<(nat, nat)>)
      requires cache.Valid() && cache.held <= others.blocks && InUse(cache.buf, others, {}) && first != second
      requires first !in others.blocks && second !in others.blocks
      requires first < |cache.disk| && second < |cache.disk| && first !in cache.pinned
      modifies cache`buf, cache`held
      ensures cache.Valid()
      ensures !BufferLeft(|cache.pinned|) ==> r.None?
      ensures r.None? ==>
                !BufferLeft(|cache.pinned|) || (second !in cache.pinned && !BufferLeft(|cache.pinned| + 1))
      ensures r.Some? ==>
                && |cache.buf| == NBUF + 1 && r.value.0 < NBUF && r.value.1 < NBUF
                && InUse(cache.buf, others, {r.value.0, r.value.1})
                && |cache.view| == |cache.disk|
                && Held(cache.buf[r.value.0], first) && Held(cache.buf[r.value.1], second)
                && cache.buf[r.value.0].data == cache.view[first] && cache.buf[r.value.1].data == cache.view[second]
                && cache.held == old(cache.held) + {first, second}
    {
      hide Cache.Valid, CacheOk, NoBuffer, PinnedIn, InUse;
      CacheFacts();
      FirstBuffer(cache.buf, cache.disk, others, first);
      ghost var buf0 := cache.buf;
      var a := cache.BRead(first);
      if a.None? { return None; }
      UsedAfterRead(buf0, cache.buf, others, {}, a.value, first);
      assert {} + {a.value} == {a.value};
      CacheFacts();
      ghost var buf1 := cache.buf;
      if NoBuffer(buf1, second) { SecondBuffer(buf1, cache.disk, others, a.value, second); }
      var b := cache.BRead(second);
      if b.None? { return None; }
      UsedAfterRead(buf1, cache.buf, others, {a.value}, b.value, second);
      assert {a.value} + {b.value} == {a.value, b.value};
      return Some((a.value, b.value));
    }

    /** memmove into a locked buffer, and bwrite. */
    method Overwrite(b: nat, data: Block, ghost target: nat, ghost used: set<nat>)
      requires cache.Valid() && b < NBUF && Held(cache.buf[b], target) && InUse(cache.buf, others, used) && b in used
      modifies cache
      ensures cache.Valid() && target < |old(cache.disk)| == |old(cache.view)| && InUse(cache.buf, others, used)
      ensures cache.buf == old(cache.buf)[b := old(cache.buf)[b].(data := data, dirty := false)]
      ensures cache.disk == old(cache.disk)[target := data] && cache.view == old(cache.view)[target := data]
      ensures cache.writes == old(cache.writes) + [Write(target, data)]
      ensures cache.pinned == old(cache.pinned) - {target} && cache.held == old(cache.held)
    {
      assert BufOk(cache.buf[b], cache.disk);
      hide Cache.Valid, InUse;
      ghost var buf0 := cache.buf;
      cache.Modify(b, data);
      cache.BWrite(b);
      UsedSame(buf0, cache.buf, others, used, b);
    }

    /** brelse of a buffer whose block is pinned or as on the disk. */
    method Release(b: nat, ghost x: nat, ghost used: set<nat>)
      requires cache.Valid() && |cache.buf| == NBUF + 1 && b < NBUF && InUse(cache.buf, others, used) && b in used
      requires Held(cache.buf[b], x) && (cache.buf[b].dirty || (x < |cache.disk| && cache.buf[b].data == cache.disk[x]))
      modifies cache`buf, cache`lru, cache`held
      ensures cache.Valid() && InUse(cache.buf, others, used - {b}) && cache.held == old(cache.held) - {x}
      ensures |cache.buf| == NBUF + 1 && SameBufs(old(cache.buf)[b := cache.buf[b]], cache.buf)
    {
      hide Cache.Valid, InUse;
      ghost var buf1 := cache.buf;
      cache.BRelse(b);
      UsedAfterRelease(buf1, cache.buf, others, used, b);
    }

    /** Copy one locked buffer to another, write that one to the disk, and release both. */
    method Transfer(from: nat, to: nat, ghost source: nat, ghost target: nat)
      requires cache.Valid() && from < NBUF && to < NBUF && source != target
      requires Held(cache.buf[from], source) && Held(cache.buf[to], target) && InUse(cache.buf, others, {from, to})
      requires source < |cache.disk| && (source in cache.pinned || cache.buf[from].data == cache.disk[source])
      modifies cache
      ensures cache.Valid() && target < |old(cache.disk)| == |old(cache.view)|
      ensures cache.disk == old(cache.disk)[target := old(cache.buf)[from].data]
      ensures cache.view == old(cache.view)[target := old(cache.buf)[from].data]
      ensures cache.writes == old(cache.writes) + [Write(target, old(cache.buf)[from].data)]
      ensures cache.pinned == old(cache.pinned) - {target}
      ensures cache.held == old(cache.held) - {source, target} && InUse(cache.buf, others, {})
    {
      assert BufOk(cache.buf[from], cache.disk) && BufOk(cache.buf[to], cache.disk);
      CleanUnpinned(cache.buf, cache.disk, from);
      hide Cache.Valid, InUse;
      Overwrite(to, cache.buf[from].data, target, {from, to});
      Release(from, source, {from, to});
      assert {from, to} - {from} == {to};
      Release(to, target, {to});
      assert {to} - {to} == {};
    }

    /** The writes `ws` are made, on the disk and in what `bread` gives, since they were `d` and `v`. */
    ghost predicate Made(d: Disk, v: seq<Block>, w: seq<Write>, ws: seq<Write>)
      reads this, cache
    {
      && Valid() && Quiet() && |cache.disk| == |d|
      && Wrote(d, w, ws, cache.disk, cache.writes) && Wrote(v, w, ws, cache.view, cache.writes)
    }

    /** The body of the loop of write_log: block `tail` of the transaction goes into the log. */
    method CopyToLog(tail: nat, ghost data: Block, ghost d: Disk, ghost v: seq<Block>, ghost w: seq<Write>,
                     ghost ws: seq<Write>)
      returns (ok: bool)
      requires Made(d, v, w, ws) && tail < lhN && IsHome(lay, d, lhBlock[tail]) && lhBlock[tail] in cache.pinned
      requires cache.view[lhBlock[tail]] == data
      modifies cache
      ensures Valid() && cache.pinned == old(cache.pinned) && (ok <==> BufferLeft(|cache.pinned|))
      ensures if ok then Made(d, v, w, ws + [Write(lay.start + 1 + tail, data)])
              else cache.disk == old(cache.disk) && cache.writes == old(cache.writes)
    {
      hide Cache.Valid, Apply, PutHeader, Wrote, InUse;
      ghost var write := Write(lay.start + 1 + tail, data);
      DiskIs(v, w, ws, cache.view, cache.writes);
      OneMoreWrite(d, w, ws, cache.disk, cache.writes, write);
      OneMoreWrite(v, w, ws, cache.view, cache.writes, write);
      var r := ReadTwo(lay.start + tail + 1, lhBlock[tail]);
      if r.None? { return false; }
      var (to, from) := r.value;
      assert {to, from} == {from, to};
      Transfer(from, to, lhBlock[tail], lay.start + tail + 1);
      return true;
    }

    /** The body of the loop of install_trans: block `tail` of the log goes home. */
    method CopyHome(tail: nat, ghost d: Disk, ghost v: seq<Block>, ghost w: seq<Write>, ghost ws: seq<Write>)
      requires Made(d, v, w, ws) && tail < lhN && IsHome(lay, d, lhBlock[tail]) && lhBlock[tail] !in others.blocks
      requires BufferLeft(|cache.pinned| + 1) || (lhBlock[tail] in cache.pinned && BufferLeft(|cache.pinned|))
      modifies cache
      ensures Made(d, v, w, ws + [Write(lhBlock[tail], old(cache.disk)[lay.start + 1 + tail])])
      ensures cache.pinned == old(cache.pinned) - {lhBlock[tail]}
    {
      hide Cache.Valid, Apply, PutHeader, Wrote, InUse;
      ghost var write := Write(lhBlock[tail], cache.disk[lay.start + 1 + tail]);
      DiskIs(v, w, ws, cache.view, cache.writes);
      OneMoreWrite(d, w, ws, cache.disk, cache.writes, write);
      OneMoreWrite(v, w, ws, cache.view, cache.writes, write);
      CleanBlock(lay.start + tail + 1);
      var r := ReadTwo(lay.start + tail + 1, lhBlock[tail]);
      var (from, to) := r.value;
      Transfer(from, to, lay.start + tail + 1, lhBlock[tail]);
    }

    // -------------------------------------------------------------------------
    // The loops

    /** write_log: the pinned blocks into the log. It panics at once, or not at all. */
    method WriteLog() returns (ok: bool)
      requires Valid() && Quiet() && Sane(|cache.disk|) && forall i :: 0 <= i < lhN ==> lhBlock[i] in cache.pinned
      modifies cache
      ensures Valid() && cache.pinned == old(cache.pinned)
      ensures ok <==> lhN == 0 || BufferLeft(|cache.pinned|)
      ensures if ok then Made(old(cache.disk), old(cache.view), old(cache.writes),
                              LogWrites(lay, Pick(old(cache.view), Logged()), lhN))
              else cache.disk == old(cache.disk) && cache.writes == old(cache.writes)
    {
      hide Cache.Valid, Apply, LogWrites, Pick;
      ghost var data := Pick(cache.view, Logged());
      ghost var d, v, w := cache.disk, cache.view, cache.writes;
      ghost var ws: seq<Write> := [];
      var tail := 0;
      NothingWritten(d, w);
      NothingWritten(v, w);
      while tail < lhN
        invariant 0 <= tail <= lhN && cache.pinned == old(cache.pinned)
        invariant tail > 0 ==> BufferLeft(|cache.pinned|)
        invariant tail == 0 ==> cache.disk == d && cache.writes == w
        invariant ws == LogWrites(lay, data, tail)
        invariant Made(d, v, w, ws)
      {
        ghost var next := LogNext(lay, v, data, tail, lhBlock[tail]);
        ok := CopyToLog(tail, data[tail], d, v, w, ws);
        if !ok { return; }
        ws := next;
        tail := tail + 1;
      }
      return true;
    }

    /** install_trans: the blocks in the log to their homes. */
    method InstallTrans()
      requires Valid() && Quiet() && Sane(|cache.disk|) && Roomy(cache.pinned, Logged(), |others.bufs|)
      modifies cache
      ensures Made(old(cache.disk), old(cache.view), old(cache.writes),
                   HomeWrites(Logged(), LogDisk.LogData(lay, old(cache.disk), lhN), lhN))
      ensures cache.pinned == old(cache.pinned) - Blocked(Logged())
    {
      hide Cache.Valid, Apply, HomeWrites, Roomy, Blocked, Wrote, InUse;
      ghost var d, v, w := cache.disk, cache.view, cache.writes;
      ghost var data := LogDisk.LogData(lay, d, lhN);
      ghost var numbers := Logged();
      ghost var ws: seq<Write> := [];
      var tail := 0;
      NothingWritten(d, w);
      NothingWritten(v, w);
      NoneBlocked(numbers);
      while tail < lhN
        invariant 0 <= tail <= lhN && cache.pinned == old(cache.pinned) - Blocked(numbers[..tail])
        invariant ws == HomeWrites(numbers, data, tail)
        invariant Made(d, v, w, ws)
      {
        InstallNext(lay, d, numbers, data, tail);
        DiskIs(d, w, ws, cache.disk, cache.writes);
        NextFits(old(cache.pinned), numbers, tail, |others.bufs|);
        CopyHome(tail, d, v, w, ws);
        ws := ws + [Write(numbers[tail], data[tail])];
        tail := tail + 1;
      }
      assert numbers[..tail] == numbers;
    }

    /** write_head: the numbers of the transaction into the header block. */
    method WriteHead(ghost d: Disk, ghost v: seq<Block>, ghost w: seq<Write>, ghost ws: seq<Write>)
      requires Made(d, v, w, ws) && BufferLeft(|cache.pinned|)
      modifies cache
      ensures cache.pinned == old(cache.pinned)
      ensures Made(d, v, w, ws + [Write(lay.start, PutHeader(old(cache.disk)[lay.start], Logged()))])
    {
      hide Cache.Valid, Apply, PutHeader, Wrote, InUse, SameBufs;
      ghost var write := Write(lay.start, PutHeader(cache.disk[lay.start], Logged()));
      DiskIs(d, w, ws, cache.disk, cache.writes);
      DiskIs(v, w, ws, cache.view, cache.writes);
      OneMoreWrite(d, w, ws, cache.disk, cache.writes, write);
      OneMoreWrite(v, w, ws, cache.view, cache.writes, write);
      CleanBlock(lay.start);
      assert InLog(lay, lay.start);
      var b := ReadHeader();
      var h := FillHeader(cache.buf[b].data);
      Overwrite(b, h, lay.start, {b});
      Release(b, lay.start, {b});
      assert {b} - {b} == {};
    }

    /** The header block in a locked buffer. */
    method ReadHeader() returns (b: nat)
      requires Valid() && Quiet() && BufferLeft(|cache.pinned|)
      modifies cache`buf, cache`held
      ensures cache.Valid() && |cache.buf| == NBUF + 1 && b < NBUF && InUse(cache.buf, others, {b})
      ensures Held(cache.buf[b], lay.start) && cache.buf[b].data == cache.disk[lay.start]
      ensures cache.held == old(cache.held) + {lay.start}
    {
      HeaderFacts();
      hide Cache.Valid, CacheOk, NoBuffer, PinnedIn, InUse, SameBufs, Quiet, BufferLeft, Fits;
      ghost var buf0 := cache.buf;
      var r := cache.BRead(lay.start);
      b := r.value;
      UsedAfterRead(buf0, cache.buf, others, {}, b, lay.start);
      assert {} + {b} == {b};
    }

    lemma HeaderFacts()
      requires Valid() && Quiet() && BufferLeft(|cache.pinned|)
      ensures !NoBuffer(cache.buf, lay.start) && lay.start < |cache.disk| == |cache.view|
      ensures lay.start !in cache.held && lay.start !in others.blocks && InUse(cache.buf, others, {})
      ensures cache.view[lay.start] == cache.disk[lay.start]
    {
      assert InLog(lay, lay.start);
      CacheFacts();
      FirstBuffer(cache.buf, cache.disk, others, lay.start);
      CleanBlock(lay.start);
    }

    /** The loop of write_head, in the data of the header buffer. */
    method FillHeader(h0: Block) returns (h: Block)
      requires lhN <= |lhBlock| == LOGSIZE
      ensures h == PutHeader(h0, Logged())
    {
      h := PutWord(h0, 0, lhN);
      var i := 0;
      assert Logged()[..0] == [];
      while i < lhN
        invariant 0 <= i <= lhN <= LOGSIZE
        invariant h == PutNumbers(PutWord(h0, 0, lhN), Logged()[..i])
      {
        assert Logged()[..i + 1][..i] == Logged()[..i];
        h := PutWord(h, i + 1, lhBlock[i]);
        i := i + 1;
      }
      assert Logged()[..i] == Logged();
    }

    /** read_head: the header block into memory. */
    method ReadHead()
      requires Valid() && Quiet() && HeaderN(cache.disk[lay.start]) <= Capacity(lay) && BufferLeft(|cache.pinned|)
      modifies this`lhN, this`lhBlock, cache
      ensures Valid() && Quiet() && cache.disk == old(cache.disk) && cache.view == old(cache.view)
      ensures cache.writes == old(cache.writes) && cache.pinned == old(cache.pinned)
      ensures Logged() == Numbers(cache.disk[lay.start])
    {
      hide Cache.Valid, Word, InUse, SameBufs;
      assert InLog(lay, lay.start);
      var b := ReadHeader();
      var h := cache.buf[b].data;
      lhN := Word(h, 0);
      var i := 0;
      while i < lhN
        invariant 0 <= i <= lhN == Word(h, 0) <= Capacity(lay) && |lhBlock| == LOGSIZE
        invariant lhBlock[..i] == Numbers(h)[..i]
        modifies this`lhBlock
      {
        lhBlock := lhBlock[i := Word(h, i + 1)];
        assert lhBlock[..i + 1] == lhBlock[..i] + [Word(h, i + 1)];
        i := i + 1;
      }
      Release(b, lay.start, {b});
      assert {b} - {b} == {};
    }

    // -------------------------------------------------------------------------
    // Recovery and commit

    /** recover_from_log: read the header, install, clear. */
    method RecoverFromLog()
      requires Valid() && Quiet() && LogOk(lay, cache.disk) && cache.pinned == {} && cache.view == cache.disk
      requires others == NOBODY
      modifies this`lhN, this`lhBlock, cache
      ensures Valid() && Quiet() && lhN == 0 && cache.pinned == {} && cache.view == cache.disk
      ensures Wrote(old(cache.disk), old(cache.writes), RecoveryWrites(lay, old(cache.disk)), cache.disk, cache.writes)
    {
      hide Cache.Valid, Apply, HomeWrites, RecoveryWrites, PutHeader;
      ghost var d, w := cache.disk, cache.writes;
      ReadHead();
      RecoveryStages(lay, d, lhN);
      ghost var installs := HomeWrites(Logged(), LogDisk.LogData(lay, d, lhN), lhN);
      InstallTrans();
      ClearHead(d, d, w, installs);
    }

    /** The end of a commit and of a recovery: `lh.n = 0` and write_head. */
    method ClearHead(ghost d: Disk, ghost v: seq<Block>, ghost w: seq<Write>, ghost ws: seq<Write>)
      requires Made(d, v, w, ws) && BufferLeft(|cache.pinned|)
      modifies this`lhN, cache
      ensures lhN == 0 && cache.pinned == old(cache.pinned)
      ensures Made(d, v, w, ws + [Write(lay.start, PutHeader(old(cache.disk)[lay.start], []))])
    {
      lhN := 0;
      assert Logged() == [];
      WriteHead(d, v, w, ws);
    }

    /** The blocks that are to be committed are the pinned ones. */
    lemma PinnedBlocks()
      requires lhN <= |lhBlock| && cache.pinned == Blocked(Logged())
      ensures forall i :: 0 <= i < lhN ==> lhBlock[i] in cache.pinned
    {
      forall i | 0 <= i < lhN
        ensures lhBlock[i] in cache.pinned
      {
        assert Logged()[i] == lhBlock[i];
      }
    }

    /** Blocks that nobody else uses read as they are on the disk. */
    ghost predicate Clean()
      reads this, cache
    {
      |cache.view| == |cache.disk| && forall x: nat :: x < |cache.view| && x !in others.blocks ==>
                                                         cache.view[x] == cache.disk[x]
    }

    lemma NothingPinned()
      requires cache.Valid() && cache.held <= others.blocks && cache.pinned == {}
      ensures Clean()
    {
      forall x: nat | x < |cache.disk| && x !in others.blocks
        ensures |cache.view| == |cache.disk| && cache.view[x] == cache.disk[x]
      {
        CleanBlock(x);
      }
      CacheFacts();
    }

    /** The second half of a commit: the header is on the disk, and the blocks go home. */
    method FinishCommit(ghost d: Disk, ghost v: seq<Block>, ghost w: seq<Write>, ghost ws: seq<Write>,
                        ghost blocks: seq<Uint32>, ghost data: seq<Block>)
      requires TransactionOk(lay, d, blocks, data) && |v| == |d| && forall i :: 0 <= i < |blocks| ==>
                 data[i] == v[blocks[i]]
      requires ws == LogWrites(lay, data, |data|) + [Write(lay.start, PutHeader(d[lay.start], blocks))]
      requires Made(d, v, w, ws) && Sane(|d|) && Logged() == blocks
      requires cache.pinned == Blocked(blocks) && BufferLeft(|blocks|)
      modifies this`lhN, cache
      ensures Valid() && Quiet() && lhN == 0 && cache.pinned == {} && Clean()
      ensures Wrote(d, w, CommitWrites(lay, d, blocks, data), cache.disk, cache.writes)
      ensures |cache.view| == |v| && forall x: nat :: x < |v| && !InLog(lay, x) ==> cache.view[x] == v[x]
    {
      hide Cache.Valid, Apply, HomeWrites, LogWrites, CommitWrites, PutHeader, Committed;
      ghost var n := |blocks|;
      ghost var d2, v2, w2 := cache.disk, cache.view, cache.writes;
      CommitMiddle(lay, d, blocks, data);
      BlockedSize(blocks);
      InstallTrans();
      CommitLate(lay, d, blocks, data);
      WroteThen(d, w, ws, d2, w2, HomeWrites(blocks, data, n), cache.disk, cache.writes);
      WroteThen(v, w, ws, v2, w2, HomeWrites(blocks, data, n), cache.view, cache.writes);
      ClearHead(d, v, w, ws + HomeWrites(blocks, data, n));
      NothingPinned();
      forall x: nat | x < |v| && !InLog(lay, x)
        ensures cache.view[x] == v[x]
      {
        CommitIsSilent(lay, d, v, blocks, data, x);
      }
    }

    /**
     commit: the pinned blocks into the log, the header, the blocks home, the empty header. Afterwards
     nothing is pinned any more and the file system sees the same blocks as before. It panics just
     when the logged blocks and the buffers that others use are as many as there are buffers, before
     it has written anything.
     */
    method Commit() returns (ok: bool)
      requires Valid() && Quiet() && Sane(|cache.disk|) && cache.pinned == Blocked(Logged())
      modifies this`lhN, cache
      ensures Valid() && (ok <==> old(lhN) == 0 || BufferLeft(old(lhN)))
      ensures ok ==>
                && lhN == 0 && Quiet() && cache.pinned == {} && Clean()
                && Wrote(old(cache.disk), old(cache.writes),
                         Planned(lay, old(cache.disk), old(Logged()), old(cache.view)),
                         cache.disk, cache.writes)
                && |cache.view| == |old(cache.view)|
                && forall x: nat :: x < |cache.view| && !InLog(lay, x) ==> cache.view[x] == old(cache.view)[x]
      ensures !ok ==> cache.disk == old(cache.disk) && cache.writes == old(cache.writes)
    {
      hide Cache.Valid, Apply, HomeWrites, LogWrites, CommitWrites, PutHeader, Pick, Committed;
      ghost var d, v, w := cache.disk, cache.view, cache.writes;
      ghost var blocks, data := Logged(), Pick(cache.view, Logged());
      NothingWritten(d, w);
      if lhN > 0 {
        ghost var written := LogWrites(lay, data, lhN);
        PinnedBlocks();
        BlockedSize(blocks);
        ok := WriteLog();
        if !ok { return; }
        CommitMiddle(lay, d, blocks, data);
        WriteHead(d, v, w, written);
        written := written + [Write(lay.start, PutHeader(d[lay.start], blocks))];
        FinishCommit(d, v, w, written, blocks, data);
        return;
      }
      NothingPinned();
      return true;
    }

    // -------------------------------------------------------------------------
    // Operations

    /** One pass of the loop of begin_op; if it fails the process sleeps and tries again. */
    method TryBegin() returns (ok: bool)
      modifies this`outstanding
      ensures ok <==> !committing && lhN + (old(outstanding) + 1) * MAXOPBLOCKS <= LOGSIZE
      ensures outstanding == old(outstanding) + if ok then 1 else 0
    {
      if committing {
        return false;
      } else if lhN + (outstanding + 1) * MAXOPBLOCKS > LOGSIZE {
        return false;
      } else {
        outstanding := outstanding + 1;
        return true;
      }
    }

    /** end_op: the last operation commits for all. If it is not the last one, nothing happens to the disk. */
    method EndOp() returns (ok: bool)
      requires Valid() && Quiet() && Sane(|cache.disk|) && cache.pinned == Blocked(Logged())
      modifies this`outstanding, this`committing, this`lhN, cache
      ensures Valid() && outstanding == old(outstanding) - 1
      ensures ok <==> !old(committing) && (outstanding == 0 ==> old(lhN) == 0 || BufferLeft(old(lhN)))
      ensures ok ==> !committing && |cache.view| == |old(cache.view)| &&
                     forall x: nat :: x < |cache.view| && !InLog(lay, x) ==> cache.view[x] == old(cache.view)[x]
      ensures ok && outstanding == 0 ==>
                && lhN == 0 && Quiet() && cache.pinned == {} && Clean()
                && Wrote(old(cache.disk), old(cache.writes),
                         Planned(lay, old(cache.disk), old(Logged()), old(cache.view)),
                         cache.disk, cache.writes)
      ensures ok && outstanding != 0 ==>
                Logged() == old(Logged()) && cache.view == old(cache.view) && cache.pinned == old(cache.pinned)
      ensures !ok || outstanding != 0 ==> cache.disk == old(cache.disk) && cache.writes == old(cache.writes)
    {
      hide Cache.Valid, Apply, CommitWrites, Pick;
      outstanding := outstanding - 1;
      if committing {
        return false;
      }
      if outstanding == 0 {
        committing := true;
        ok := Commit();
        if !ok { return; }
        committing := false;
        return;
      }
      return true;
    }

    /** log_write: the held buffer `b` joins the transaction and stays in the cache until the commit. */
    method LogWrite(b: nat) returns (ok: bool)
      requires Valid() && b < NBUF && Held(cache.buf[b], cache.buf[b].blockno)
      modifies this`lhN, this`lhBlock, cache`buf, cache`pinned
      ensures Valid()
      ensures ok <==> old(lhN) < LOGSIZE && old(lhN) < lay.size - 1 && outstanding >= 1
      ensures ok ==> |cache.buf| == |old(cache.buf)| && cache.buf[b].blockno == old(cache.buf)[b].blockno < TWO32
      ensures ok ==> Logged() == Absorb(old(Logged()), cache.buf[b].blockno)
      ensures ok ==> cache.pinned == old(cache.pinned) + {cache.buf[b].blockno}
      ensures ok ==> cache.buf == old(cache.buf)[b := old(cache.buf)[b].(dirty := true)]
      ensures !ok ==> cache.buf == old(cache.buf) && cache.pinned == old(cache.pinned) && Logged() == old(Logged())
    {
      if lhN >= LOGSIZE || lhN >= lay.size - 1 {
        return false;
      }
      if outstanding < 1 {
        return false;
      }
      InRange(b);
      hide Cache.Valid;
      ghost var lh := Logged();
      var i := Absorbs(cache.buf[b].blockno);
      lhBlock := lhBlock[i := cache.buf[b].blockno];
      if i == lhN {
        lhN := lhN + 1;
      }
      assert Logged() == Absorb(lh, cache.buf[b].blockno);
      cache.Pin(b);
      return true;
    }

    /** The loop of log_write: where block `b` is in the transaction, or the first free slot. */
    method Absorbs(b: Uint32) returns (i: nat)
      requires lhN <= |lhBlock|
      ensures i <= lhN && (i < lhN ==> lhBlock[i] == b)
      ensures i < lhN <==> Index(Logged(), b).Some?
    {
      i := 0;
      while i < lhN
        invariant 0 <= i <= lhN
        invariant forall j :: 0 <= j < i ==> lhBlock[j] != b
      {
        if lhBlock[i] == b {
          assert Logged()[i] == b;
          return;
        }
        i := i + 1;
      }
    }

    lemma InRange(b: nat)
      requires Valid() && b < NBUF && Held(cache.buf[b], cache.buf[b].blockno)
      ensures |cache.buf| == NBUF + 1 && cache.buf[b].blockno < |cache.disk| <= TWO32
    {
      assert BufOk(cache.buf[b], cache.disk);
    }
  }
}

/** Whether a commit finds the buffers it needs. */
module LogBuffers {
  import opened Blocks
  import opened LogDisk
  import opened LogProtocol
  import opened LogAtomicity
  import BufferCache

  /**
   While others use `r` buffers a commit can panic for want of one exactly if the log area has room for
   so many blocks that together they are all buffers. With nobody else the one that mkfs makes has not.
   */
  lemma CommitHasBuffers(lay: Layout, d: Disk, r: nat)
    requires Fresh(lay, d) && Spacious(lay, |d|)
    ensures (forall schedule: seq<Choice> :: Execute(lay, d, schedule).lh != [] ==>
               |Execute(lay, d, schedule).lh| + r < BufferCache.NBUF) <==> Capacity(lay) + r < BufferCache.NBUF
  {
    hide Execute;
    LogFills(lay, d, Capacity(lay));
    LogFills(lay, d, Capacity(lay) + 1);
    var full: seq<Choice> :| |Execute(lay, d, full).lh| >= Capacity(lay);
    assert Execute(lay, d, full).lh != [];
  }

  /** One reader is enough: with the log of mkfs, 29 logged blocks and the one it holds are all buffers. */
  lemma ReaderTooMany(d: Disk, data: Block)
    requires |d| >= 62
    ensures |Execute(MKFS_LAYOUT, d, FillSchedule(32, 29, data)).lh| < LOGSIZE
    ensures |Execute(MKFS_LAYOUT, d, FillSchedule(32, 29, data)).lh| + 1 == BufferCache.NBUF
  {
    Fill(MKFS_LAYOUT, d, 32, 29, data);
  }
}

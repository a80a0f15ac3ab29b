/**
 The redo log as the disk sees it: which blocks a commit and a recovery write, in which order, and
 why every prefix of those writes can be repaired.
 */
module LogDisk {
  import opened Wrappers
  import opened Blocks

  const MAXOPBLOCKS: nat := 10
  const LOGSIZE: nat := 30

  /** Where the log is: a header block at `start`, then `size - 1` data blocks. */
  datatype Layout = Layout(start: nat, size: nat)

  datatype Write = Write(blockno: nat, data: Block)

  /** The most blocks a transaction can log: what the array in the header and the disk area hold. */
  function Capacity(lay: Layout): nat {
    if lay.size == 0 then 0 else if lay.size - 1 < LOGSIZE then lay.size - 1 else LOGSIZE
  }

  predicate InLog(lay: Layout, b: nat) {
    lay.start <= b < lay.start + lay.size
  }

  predicate IsHome(lay: Layout, d: Disk, b: nat) {
    b < |d| && !InLog(lay, b)
  }

  ghost predicate Fits(lay: Layout, d: Disk) {
    lay.size > 1 && lay.start + lay.size <= |d| <= TWO32
  }

  function Apply(d: Disk, ws: seq<Write>): (r: Disk)
    requires forall i :: 0 <= i < |ws| ==> ws[i].blockno < |d|
    ensures |r| == |d|
  {
    if ws == [] then d
    else
      var w := ws[|ws| - 1];
      Apply(d, ws[..|ws| - 1])[w.blockno := w.data]
  }

  // ---------------------------------------------------------------------------
  // The header block

  function HeaderN(h: Block): nat { Word(h, 0) }

  /** The block numbers in a header. */
  function Numbers(h: Block): seq<Uint32>
    requires HeaderN(h) <= LOGSIZE
  {
    FirstNumbers(h, HeaderN(h))
  }

  function FirstNumbers(h: Block, n: nat): (r: seq<Uint32>)
    requires n <= LOGSIZE
    ensures |r| == n && forall i :: 0 <= i < n ==> r[i] == Word(h, i + 1)
  {
    if n == 0 then [] else FirstNumbers(h, n - 1) + [Word(h, n)]
  }

  /** Words 1, 2, ... of the header set to the block numbers; the rest of the block stays. */
  function PutNumbers(h: Block, blocks: seq<Uint32>): (r: Block)
    requires |blocks| <= LOGSIZE
  {
    if blocks == [] then h
    else PutWord(PutNumbers(h, blocks[..|blocks| - 1]), |blocks|, blocks[|blocks| - 1])
  }

  function PutHeader(h: Block, blocks: seq<Uint32>): Block
    requires |blocks| <= LOGSIZE
  {
    PutNumbers(PutWord(h, 0, |blocks|), blocks)
  }

  lemma {:induction false} NumbersRead(h: Block, blocks: seq<Uint32>, j: nat)
    requires |blocks| <= LOGSIZE && j < WORDS
    ensures Word(PutNumbers(h, blocks), j) == if 1 <= j <= |blocks| then blocks[j - 1] else Word(h, j)
  {
    if blocks != [] {
      NumbersRead(h, blocks[..|blocks| - 1], j);
      WordAfterPut(PutNumbers(h, blocks[..|blocks| - 1]), |blocks|, blocks[|blocks| - 1], j);
    }
  }

  /** The header read back is the header written. */
  lemma HeaderReadBack(h: Block, blocks: seq<Uint32>)
    requires |blocks| <= LOGSIZE
    ensures HeaderN(PutHeader(h, blocks)) == |blocks| && Numbers(PutHeader(h, blocks)) == blocks
  {
    var h1 := PutWord(h, 0, |blocks|);
    WordAfterPut(h, 0, |blocks|, 0);
    NumbersRead(h1, blocks, 0);
    forall i | 0 <= i < |blocks|
      ensures Word(PutHeader(h, blocks), i + 1) == blocks[i]
    {
      NumbersRead(h1, blocks, i + 1);
    }
  }

  // ---------------------------------------------------------------------------
  // Transactions

  /** What a transaction wants to write: home blocks, none twice, with their new contents. */
  ghost predicate TransactionOk(lay: Layout, d: Disk, blocks: seq<Uint32>, data: seq<Block>) {
    && Fits(lay, d)
    && |blocks| == |data| <= Capacity(lay)
    && (forall i :: 0 <= i < |blocks| ==> IsHome(lay, d, blocks[i]))
    && (forall i, j :: 0 <= i < j < |blocks| ==> blocks[i] != blocks[j])
  }

  /** The place of `b` among the blocks of a transaction. */
  function Index(blocks: seq<Uint32>, b: nat): (r: Option<nat>)
    ensures r.Some? ==> r.value < |blocks| && blocks[r.value] == b
    ensures r.None? ==> forall i :: 0 <= i < |blocks| ==> blocks[i] != b
  {
    if blocks == [] then None
    else if blocks[|blocks| - 1] == b then Some(|blocks| - 1)
    else Index(blocks[..|blocks| - 1], b)
  }

  /** Log absorption: a block that is already in the transaction takes no second slot. */
  function Absorb(blocks: seq<Uint32>, b: Uint32): seq<Uint32> {
    if Index(blocks, b).Some? then blocks else blocks + [b]
  }

  /** Block `b` of a disk with the transaction in it. */
  function Updated(d: Disk, blocks: seq<Uint32>, data: seq<Block>, b: nat): Block
    requires b < |d| && |blocks| == |data|
  {
    match Index(blocks, b)
    case Some(i) => data[i]
    case None => d[b]
  }

  /** The first `k` writes to the home blocks. */
  function HomeWrites(blocks: seq<Uint32>, data: seq<Block>, k: nat): (ws: seq<Write>)
    requires k <= |data| == |blocks|
    ensures |ws| == k && forall i :: 0 <= i < k ==> ws[i] == Write(blocks[i], data[i])
  {
    if k == 0 then [] else HomeWrites(blocks, data, k - 1) + [Write(blocks[k - 1], data[k - 1])]
  }

  lemma {:induction false} AfterHomeWrites(lay: Layout, d: Disk, blocks: seq<Uint32>, data: seq<Block>, k: nat, b: nat)
    requires TransactionOk(lay, d, blocks, data) && k <= |data| && b < |d|
    ensures Apply(d, HomeWrites(blocks, data, k))[b] == Updated(d, blocks[..k], data[..k], b)
  {
    if k > 0 {
      hide Apply, Updated;
      AfterHomeWrites(lay, d, blocks, data, k - 1, b);
      ApplyOne(d, HomeWrites(blocks, data, k - 1), Write(blocks[k - 1], data[k - 1]));
      OneMoreUpdated(d, blocks, data, k, b);
    } else {
      assert blocks[..0] == [] && data[..0] == [];
    }
  }

  lemma OneMoreUpdated(d: Disk, blocks: seq<Uint32>, data: seq<Block>, k: nat, b: nat)
    requires 0 < k <= |blocks| == |data| && b < |d|
    ensures Updated(d, blocks[..k], data[..k], b) ==
            if blocks[k - 1] == b then data[k - 1] else Updated(d, blocks[..k - 1], data[..k - 1], b)
  {
    assert blocks[..k][..k - 1] == blocks[..k - 1];
  }

  /** The other blocks stay as they are. */
  lemma {:induction false} HomeWritesKeep(d: Disk, blocks: seq<Uint32>, data: seq<Block>, k: nat, b: nat)
    requires k <= |data| == |blocks| && b < |d|
    requires forall i :: 0 <= i < |blocks| ==> blocks[i] < |d| && blocks[i] != b
    ensures Apply(d, HomeWrites(blocks, data, k))[b] == d[b]
  {
    if k > 0 {
      HomeWritesKeep(d, blocks, data, k - 1, b);
      assert HomeWrites(blocks, data, k)[..k - 1] == HomeWrites(blocks, data, k - 1);
    }
  }

  // ---------------------------------------------------------------------------
  // What the disk means

  /** The contents of the first `n` blocks of the log. */
  function LogData(lay: Layout, d: Disk, n: nat): seq<Block>
    requires lay.start + 1 + n <= |d|
  {
    d[lay.start + 1..lay.start + 1 + n]
  }

  /** The transaction in the log is sane: few enough blocks, all of them home blocks, none twice. */
  ghost predicate LogOk(lay: Layout, d: Disk) {
    && Fits(lay, d)
    && var h := d[lay.start];
       HeaderN(h) <= Capacity(lay) && TransactionOk(lay, d, Numbers(h), LogData(lay, d, HeaderN(h)))
  }

  /** The contents of home block `b` once a recovery has run to its end. */
  ghost function Home(lay: Layout, d: Disk, b: nat): Block
    requires LogOk(lay, d) && b < |d|
  {
    Updated(d, Numbers(d[lay.start]), LogData(lay, d, HeaderN(d[lay.start])), b)
  }

  /** The two disks mean the same home blocks. */
  ghost predicate SameHome(lay: Layout, d: Disk, d': Disk)
    requires LogOk(lay, d) && LogOk(lay, d')
  {
    |d| == |d'| && forall b: nat :: IsHome(lay, d, b) ==> Home(lay, d', b) == Home(lay, d, b)
  }

  // ---------------------------------------------------------------------------
  // Recovery

  /** The first `k` installs from the log. */
  function Installs(lay: Layout, d: Disk, k: nat): (ws: seq<Write>)
    requires Fits(lay, d) && k <= HeaderN(d[lay.start]) <= Capacity(lay)
    ensures |ws| == k
  {
    HomeWrites(Numbers(d[lay.start]), LogData(lay, d, HeaderN(d[lay.start])), k)
  }

  function RecoveryWrites(lay: Layout, d: Disk): (ws: seq<Write>)
    requires LogOk(lay, d)
    ensures |ws| == HeaderN(d[lay.start]) + 1
    ensures forall i :: 0 <= i < |ws| ==> ws[i].blockno < |d|
  {
    Installs(lay, d, HeaderN(d[lay.start])) + [Write(lay.start, PutHeader(d[lay.start], []))]
  }

  /** Disk `d'` is disk `d` with some of the logged blocks already at home. */
  lemma PartlyInstalled(lay: Layout, d: Disk, d': Disk, k: nat)
    requires LogOk(lay, d) && k <= HeaderN(d[lay.start]) && |d'| == |d|
    requires var numbers, data := Numbers(d[lay.start]), LogData(lay, d, HeaderN(d[lay.start]));
             forall b: nat :: b < |d| ==> d'[b] == Updated(d, numbers[..k], data[..k], b)
    ensures LogOk(lay, d') && SameHome(lay, d, d') && d'[lay.start] == d[lay.start]
    ensures k == HeaderN(d[lay.start]) ==> forall b: nat :: IsHome(lay, d, b) ==> d'[b] == Home(lay, d, b)
  {
    hide Word, FirstNumbers;
    var numbers, data := Numbers(d[lay.start]), LogData(lay, d, HeaderN(d[lay.start]));
    forall b: nat | b < |d| && InLog(lay, b)
      ensures d'[b] == d[b]
    {
      assert Index(numbers[..k], b).None?;
    }
    assert LogData(lay, d', HeaderN(d[lay.start])) == data;
    assert numbers[..|numbers|] == numbers && data[..|data|] == data;
  }

  /** A recovery cut off before it clears the header changes nothing that matters. */
  lemma PartialRecovery(lay: Layout, d: Disk, k: nat)
    requires LogOk(lay, d) && k <= HeaderN(d[lay.start])
    ensures var d' := Apply(d, Installs(lay, d, k));
            && LogOk(lay, d') && SameHome(lay, d, d') && d'[lay.start] == d[lay.start]
            && (k == HeaderN(d[lay.start]) ==> forall b: nat :: IsHome(lay, d, b) ==> d'[b] == Home(lay, d, b))
  {
    var numbers, data := Numbers(d[lay.start]), LogData(lay, d, HeaderN(d[lay.start]));
    var d' := Apply(d, Installs(lay, d, k));
    forall b: nat | b < |d|
      ensures d'[b] == Updated(d, numbers[..k], data[..k], b)
    {
      AfterHomeWrites(lay, d, numbers, data, k, b);
    }
    PartlyInstalled(lay, d, d', k);
  }

  /** Clearing the header of a disk whose home blocks are all installed. */
  lemma ClearedHeader(lay: Layout, d: Disk)
    requires LogOk(lay, d)
    requires forall b: nat :: IsHome(lay, d, b) ==> d[b] == Home(lay, d, b)
    ensures var d' := d[lay.start := PutHeader(d[lay.start], [])];
            && LogOk(lay, d') && HeaderN(d'[lay.start]) == 0 && SameHome(lay, d, d')
            && forall b: nat :: IsHome(lay, d, b) ==> d'[b] == d[b]
  {
    HeaderReadBack(d[lay.start], []);
  }

  /** After any prefix of a recovery the home blocks mean what they meant before; after all of it they hold it. */
  lemma RecoveryPrefix(lay: Layout, d: Disk, k: nat)
    requires LogOk(lay, d) && k <= |RecoveryWrites(lay, d)|
    ensures var d' := Apply(d, RecoveryWrites(lay, d)[..k]);
            && LogOk(lay, d') && SameHome(lay, d, d')
            && (k == |RecoveryWrites(lay, d)| ==>
                  HeaderN(d'[lay.start]) == 0 && forall b: nat :: IsHome(lay, d, b) ==> d'[b] == Home(lay, d, b))
  {
    var n := HeaderN(d[lay.start]);
    var ws := RecoveryWrites(lay, d);
    if k <= n {
      assert ws[..k] == Installs(lay, d, k);
      PartialRecovery(lay, d, k);
    } else {
      PartialRecovery(lay, d, n);
      var d1 := Apply(d, Installs(lay, d, n));
      ClearedHeader(lay, d1);
      assert ws[..k] == Installs(lay, d, n) + [Write(lay.start, PutHeader(d[lay.start], []))];
      ApplyOne(d, Installs(lay, d, n), Write(lay.start, PutHeader(d[lay.start], [])));
      HomeStays(lay, d, d1, d1[lay.start := PutHeader(d[lay.start], [])]);
    }
  }

  lemma ApplyOne(d: Disk, ws: seq<Write>, w: Write)
    requires forall i :: 0 <= i < |ws| ==> ws[i].blockno < |d|
    requires w.blockno < |d|
    ensures Apply(d, ws + [w]) == Apply(d, ws)[w.blockno := w.data]
  {
    assert (ws + [w])[..|ws|] == ws;
  }

  lemma HomeStays(lay: Layout, d: Disk, d1: Disk, d2: Disk)
    requires LogOk(lay, d) && LogOk(lay, d1) && LogOk(lay, d2)
    requires SameHome(lay, d, d1) && SameHome(lay, d1, d2)
    ensures SameHome(lay, d, d2)
  {
  }

  /** The machine stops in the middle of one recovery after another; `cuts` says where. */
  ghost function Crashed(lay: Layout, d: Disk, cuts: seq<nat>): (r: Disk)
    requires LogOk(lay, d)
    ensures LogOk(lay, r) && SameHome(lay, d, r)
  {
    if cuts == [] then d
    else
      var d1 := Crashed(lay, d, cuts[..|cuts| - 1]);
      var cut := cuts[|cuts| - 1];
      var ws := RecoveryWrites(lay, d1);
      var k := if cut <= |ws| then cut else |ws|;
      RecoveryPrefix(lay, d1, k);
      Apply(d1, ws[..k])
  }

  /** What a recovery that runs to its end leaves. */
  ghost function Recovered(lay: Layout, d: Disk): (r: Disk)
    requires LogOk(lay, d)
    ensures |r| == |d|
    ensures LogOk(lay, r) && HeaderN(r[lay.start]) == 0
    ensures forall b: nat :: IsHome(lay, d, b) ==> r[b] == Home(lay, d, b)
  {
    var ws := RecoveryWrites(lay, d);
    RecoveryPrefix(lay, d, |ws|);
    assert ws[..|ws|] == ws;
    Apply(d, ws)
  }

  // ---------------------------------------------------------------------------
  // Commit

  /** The first `k` writes into the log. */
  function LogWrites(lay: Layout, data: seq<Block>, k: nat): (ws: seq<Write>)
    requires k <= |data|
    ensures |ws| == k && forall i :: 0 <= i < k ==> ws[i] == Write(lay.start + 1 + i, data[i])
  {
    if k == 0 then [] else LogWrites(lay, data, k - 1) + [Write(lay.start + k, data[k - 1])]
  }

  /** All the writes of a commit: the log, the header, the home blocks, the empty header. */
  function CommitWrites(lay: Layout, d: Disk, blocks: seq<Uint32>, data: seq<Block>): (ws: seq<Write>)
    requires Fits(lay, d) && |blocks| == |data| <= LOGSIZE
    ensures |ws| == 2 * |blocks| + 2
  {
    var header := PutHeader(d[lay.start], blocks);
    LogWrites(lay, data, |data|) + [Write(lay.start, header)] + HomeWrites(blocks, data, |data|)
    + [Write(lay.start, PutHeader(header, []))]
  }

  lemma ApplyNone(d: Disk)
    ensures Apply(d, []) == d
  {
  }

  lemma {:induction false} AfterLogWrites(lay: Layout, d: Disk, data: seq<Block>, k: nat, b: nat)
    requires k <= |data| && Fits(lay, d) && |data| < lay.size && b < |d|
    ensures Apply(d, LogWrites(lay, data, k))[b] ==
            if lay.start < b <= lay.start + k then data[b - lay.start - 1] else d[b]
  {
    hide Apply;
    if k > 0 {
      AfterLogWrites(lay, d, data, k - 1, b);
      ApplyOne(d, LogWrites(lay, data, k - 1), Write(lay.start + k, data[k - 1]));
    } else {
      ApplyNone(d);
    }
  }

  lemma {:induction false} ApplyAppend(d: Disk, ws: seq<Write>, more: seq<Write>)
    requires forall i :: 0 <= i < |ws| ==> ws[i].blockno < |d|
    requires forall i :: 0 <= i < |more| ==> more[i].blockno < |d|
    ensures Apply(d, ws + more) == Apply(Apply(d, ws), more)
  {
    if more == [] {
      assert ws + more == ws;
    } else {
      ApplyAppend(d, ws, more[..|more| - 1]);
      assert (ws + more)[..|ws + more| - 1] == ws + more[..|more| - 1];
    }
  }

  /** The disk right after the header of a commit was written. */
  ghost function Committed(lay: Layout, d: Disk, blocks: seq<Uint32>, data: seq<Block>): (r: Disk)
    requires TransactionOk(lay, d, blocks, data)
    ensures |r| == |d|
  {
    Apply(d, LogWrites(lay, data, |data|))[lay.start := PutHeader(d[lay.start], blocks)]
  }

  /** The transaction is in the log: recovery would install it. */
  lemma CommittedMeans(lay: Layout, d: Disk, blocks: seq<Uint32>, data: seq<Block>)
    requires TransactionOk(lay, d, blocks, data)
    ensures var d1 := Committed(lay, d, blocks, data);
            && LogOk(lay, d1)
            && Numbers(d1[lay.start]) == blocks && LogData(lay, d1, |blocks|) == data
            && forall b: nat :: IsHome(lay, d, b) ==> Home(lay, d1, b) == Updated(d, blocks, data, b)
  {
    hide Apply, Word, PutHeader, LogWrites;
    var d1 := Committed(lay, d, blocks, data);
    HeaderReadBack(d[lay.start], blocks);
    forall b: nat | b < |d|
      ensures Apply(d, LogWrites(lay, data, |data|))[b] ==
                if lay.start < b <= lay.start + |data| then data[b - lay.start - 1] else d[b]
    {
      AfterLogWrites(lay, d, data, |data|, b);
    }
    assert LogData(lay, d1, |blocks|) == data;
  }

  /** After the header a commit does what a recovery of that disk would do. */
  lemma CommitEndsAsRecovery(lay: Layout, d: Disk, blocks: seq<Uint32>, data: seq<Block>)
    requires TransactionOk(lay, d, blocks, data)
    ensures LogOk(lay, Committed(lay, d, blocks, data))
    ensures CommitWrites(lay, d, blocks, data) ==
            LogWrites(lay, data, |data|) + [Write(lay.start, PutHeader(d[lay.start], blocks))]
            + RecoveryWrites(lay, Committed(lay, d, blocks, data))
  {
    hide Apply, Word, PutHeader;
    CommittedMeans(lay, d, blocks, data);
    HeaderReadBack(d[lay.start], blocks);
  }

  /** A commit cut off while it writes the log: nothing has happened yet. */
  lemma LogPrefix(lay: Layout, d: Disk, data: seq<Block>, k: nat)
    requires LogOk(lay, d) && HeaderN(d[lay.start]) == 0 && k <= |data| < lay.size
    ensures MeansOld(lay, d, Apply(d, LogWrites(lay, data, k)))
  {
    hide Apply, Word, LogWrites;
    forall b: nat | b < |d|
      ensures Apply(d, LogWrites(lay, data, k))[b] == if lay.start < b <= lay.start + k then data[b - lay.start - 1]
              else d[b]
    {
      AfterLogWrites(lay, d, data, k, b);
    }
  }

  /** All writes go to the disk. */
  lemma CommitInRange(lay: Layout, d: Disk, blocks: seq<Uint32>, data: seq<Block>)
    requires TransactionOk(lay, d, blocks, data)
    ensures forall i :: 0 <= i < 2 * |blocks| + 2 ==> CommitWrites(lay, d, blocks, data)[i].blockno < |d|
  {
  }

  /** Some writes that are cut off after the one in the middle. */
  lemma ApplySplit(d: Disk, ws: seq<Write>, first: seq<Write>, w: Write, rest: seq<Write>, k: nat)
    requires ws == first + [w] + rest && |first| < k <= |ws|
    requires forall i :: 0 <= i < |first| ==> first[i].blockno < |d|
    requires forall i :: 0 <= i < |rest| ==> rest[i].blockno < |d|
    requires w.blockno < |d|
    ensures forall i :: 0 <= i < k ==> ws[i].blockno < |d|
    ensures Apply(d, ws[..k]) == Apply(Apply(d, first)[w.blockno := w.data], rest[..k - |first| - 1])
  {
    var j := k - |first| - 1;
    assert ws[..k] == first + [w] + rest[..j];
    ApplyOne(d, first, w);
    ApplyAppend(d, first + [w], rest[..j]);
  }

  /** After a recovery disk `r` would hold the contents of `d` in every home block. */
  ghost predicate MeansOld(lay: Layout, d: Disk, r: Disk) {
    LogOk(lay, r) && |r| == |d| && forall b: nat :: IsHome(lay, d, b) ==> Home(lay, r, b) == d[b]
  }

  /** After a recovery disk `r` would hold the contents of `d` with the transaction in every home block. */
  ghost predicate MeansNew(lay: Layout, d: Disk, blocks: seq<Uint32>, data: seq<Block>, r: Disk)
    requires |blocks| == |data|
  {
    LogOk(lay, r) && |r| == |d| && forall b: nat :: IsHome(lay, d, b) ==> Home(lay, r, b) == Updated(d, blocks, data, b)
  }

  lemma RecoveryKeepsNew(lay: Layout, d: Disk, blocks: seq<Uint32>, data: seq<Block>, d1: Disk, j: nat)
    requires |blocks| == |data| && MeansNew(lay, d, blocks, data, d1) && j <= |RecoveryWrites(lay, d1)|
    ensures var r := Apply(d1, RecoveryWrites(lay, d1)[..j]);
            && MeansNew(lay, d, blocks, data, r)
            && (j == |RecoveryWrites(lay, d1)| ==>
                  HeaderN(r[lay.start]) == 0 && forall b: nat :: IsHome(lay, d, b) ==>
                      r[b] == Updated(d, blocks, data, b))
  {
    RecoveryPrefix(lay, d1, j);
    var r := Apply(d1, RecoveryWrites(lay, d1)[..j]);
    assert forall b: nat :: IsHome(lay, d, b) ==> IsHome(lay, d1, b) && Home(lay, r, b) == Home(lay, d1, b);
  }

  /**
   After the first `k` writes of a commit the disk means the old contents as long as the header is
   not written, and the new contents from then on. The complete commit leaves an empty log.
   */
  lemma CommitPrefix(lay: Layout, d: Disk, blocks: seq<Uint32>, data: seq<Block>, k: nat)
    requires LogOk(lay, d) && HeaderN(d[lay.start]) == 0
    requires TransactionOk(lay, d, blocks, data) && k <= 2 * |blocks| + 2
    ensures forall i :: 0 <= i < k ==> CommitWrites(lay, d, blocks, data)[i].blockno < |d|
    ensures var r := Apply(d, CommitWrites(lay, d, blocks, data)[..k]);
            && (if k <= |blocks| then MeansOld(lay, d, r) else MeansNew(lay, d, blocks, data, r))
            && (k == 2 * |blocks| + 2 ==>
                  HeaderN(r[lay.start]) == 0 && forall b: nat :: IsHome(lay, d, b) ==>
                      r[b] == Updated(d, blocks, data, b))
  {
    CommitInRange(lay, d, blocks, data);
    if k <= |blocks| {
      EarlyPrefix(lay, d, blocks, data, CommitWrites(lay, d, blocks, data), k);
    } else {
      LatePrefix(lay, d, blocks, data, k);
    }
  }

  lemma SizesOk(lay: Layout, d: Disk, blocks: seq<Uint32>, data: seq<Block>)
    requires TransactionOk(lay, d, blocks, data)
    ensures Fits(lay, d) && |blocks| == |data| < lay.size && |data| <= LOGSIZE
  {
  }

  lemma EarlyPrefix(lay: Layout, d: Disk, blocks: seq<Uint32>, data: seq<Block>, ws: seq<Write>, k: nat)
    requires LogOk(lay, d) && HeaderN(d[lay.start]) == 0
    requires TransactionOk(lay, d, blocks, data) && k <= |blocks|
    requires ws == CommitWrites(lay, d, blocks, data)
    ensures forall i :: 0 <= i < k ==> ws[i].blockno < |d|
    ensures MeansOld(lay, d, Apply(d, ws[..k]))
  {
    hide CommitWrites, Word, PutHeader, Apply, LogOk, Home, TransactionOk, MeansOld;
    assert Fits(lay, d) && |blocks| == |data| < lay.size && |data| <= LOGSIZE by { SizesOk(lay, d, blocks, data); }
    CommitStart(lay, d, blocks, data, k);
    LogPrefix(lay, d, data, k);
  }

  /** A commit begins with the writes into the log. */
  lemma CommitStart(lay: Layout, d: Disk, blocks: seq<Uint32>, data: seq<Block>, k: nat)
    requires Fits(lay, d) && |blocks| == |data| <= LOGSIZE && k <= |data|
    ensures CommitWrites(lay, d, blocks, data)[..k] == LogWrites(lay, data, k)
  {
    var header := PutHeader(d[lay.start], blocks);
    FirstPart(LogWrites(lay, data, |data|), [Write(lay.start, header)], HomeWrites(blocks, data, |data|),
              [Write(lay.start, PutHeader(header, []))], k);
    assert LogWrites(lay, data, |data|)[..k] == LogWrites(lay, data, k);
  }

  lemma FirstPart<T>(a: seq<T>, b: seq<T>, c: seq<T>, e: seq<T>, k: nat)
    requires k <= |a|
    ensures (a + b + c + e)[..k] == a[..k]
  {
  }

  lemma LatePrefix(lay: Layout, d: Disk, blocks: seq<Uint32>, data: seq<Block>, k: nat)
    requires TransactionOk(lay, d, blocks, data) && |blocks| < k <= 2 * |blocks| + 2
    requires forall i :: 0 <= i < k ==> CommitWrites(lay, d, blocks, data)[i].blockno < |d|
    ensures var r := Apply(d, CommitWrites(lay, d, blocks, data)[..k]);
            && MeansNew(lay, d, blocks, data, r)
            && (k == 2 * |blocks| + 2 ==>
                  HeaderN(r[lay.start]) == 0 && forall b: nat :: IsHome(lay, d, b) ==>
                      r[b] == Updated(d, blocks, data, b))
  {
    var d1 := Committed(lay, d, blocks, data);
    var ws := CommitWrites(lay, d, blocks, data);
    CommittedMeans(lay, d, blocks, data);
    CommitEndsAsRecovery(lay, d, blocks, data);
    AfterHeader(lay, d, blocks, data, d1, ws, RecoveryWrites(lay, d1), k);
    RecoveryFrom(lay, d, blocks, data, d1, ws, k);
  }

  lemma AfterHeader(lay: Layout, d: Disk, blocks: seq<Uint32>, data: seq<Block>, d1: Disk, ws: seq<Write>,
                    rest: seq<Write>, k: nat)
    requires TransactionOk(lay, d, blocks, data) && |blocks| < k <= 2 * |blocks| + 2 == |ws|
    requires d1 == Committed(lay, d, blocks, data) && |rest| == |blocks| + 1
    requires ws == LogWrites(lay, data, |data|) + [Write(lay.start, PutHeader(d[lay.start], blocks))] + rest
    requires forall i :: 0 <= i < |rest| ==> rest[i].blockno < |d|
    ensures forall i :: 0 <= i < k ==> ws[i].blockno < |d|
    ensures Apply(d, ws[..k]) == Apply(d1, rest[..k - |blocks| - 1])
  {
    ApplySplit(d, ws, LogWrites(lay, data, |data|), Write(lay.start, PutHeader(d[lay.start], blocks)), rest, k);
  }

  lemma RecoveryFrom(lay: Layout, d: Disk, blocks: seq<Uint32>, data: seq<Block>, d1: Disk, ws: seq<Write>, k: nat)
    requires |blocks| == |data| && |blocks| < k <= 2 * |blocks| + 2 && k <= |ws|
    requires MeansNew(lay, d, blocks, data, d1) && |RecoveryWrites(lay, d1)| == |blocks| + 1
    requires forall i :: 0 <= i < k ==> ws[i].blockno < |d|
    requires Apply(d, ws[..k]) == Apply(d1, RecoveryWrites(lay, d1)[..k - |blocks| - 1])
    ensures var r := Apply(d, ws[..k]);
            && MeansNew(lay, d, blocks, data, r)
            && (k == 2 * |blocks| + 2 ==>
                  HeaderN(r[lay.start]) == 0 && forall b: nat :: IsHome(lay, d, b) ==>
                      r[b] == Updated(d, blocks, data, b))
  {
    RecoveryKeepsNew(lay, d, blocks, data, d1, k - |blocks| - 1);
  }

  /**
   Crash atomicity. A commit is cut off after any number of its writes, and then any number of
   recoveries are cut off anywhere. One recovery that runs to its end leaves every home block with
   its old contents or every home block with its new contents, and an empty log.
   */
  lemma CrashAtomicity(lay: Layout, d: Disk, blocks: seq<Uint32>, data: seq<Block>, k: nat, cuts: seq<nat>)
    requires LogOk(lay, d) && HeaderN(d[lay.start]) == 0
    requires TransactionOk(lay, d, blocks, data) && k <= 2 * |blocks| + 2
    ensures forall i :: 0 <= i < k ==> CommitWrites(lay, d, blocks, data)[i].blockno < |d|
    ensures var d1 := Apply(d, CommitWrites(lay, d, blocks, data)[..k]);
            && LogOk(lay, d1)
            && var r := Recovered(lay, Crashed(lay, d1, cuts));
               && HeaderN(r[lay.start]) == 0
               && if k <= |blocks| then forall b: nat :: IsHome(lay, d, b) ==> r[b] == d[b]
                  else forall b: nat :: IsHome(lay, d, b) ==> r[b] == Updated(d, blocks, data, b)
  {
    CommitPrefix(lay, d, blocks, data, k);
    var d1 := Apply(d, CommitWrites(lay, d, blocks, data)[..k]);
    CrashesKeepHome(lay, d1, cuts);
    assert forall b: nat :: IsHome(lay, d, b) ==> IsHome(lay, d1, b);
  }

  lemma CrashesKeepHome(lay: Layout, d: Disk, cuts: seq<nat>)
    requires LogOk(lay, d)
    ensures var r := Recovered(lay, Crashed(lay, d, cuts));
            |r| == |d| && HeaderN(r[lay.start]) == 0 && forall b: nat :: IsHome(lay, d, b) ==> r[b] == Home(lay, d, b)
  {
    var d2 := Crashed(lay, d, cuts);
    assert forall b: nat :: IsHome(lay, d, b) ==> IsHome(lay, d2, b);
  }
}

/** The steps by which files grow, as changes of the whole state, and what each of them keeps. */
module FsState {
  import opened Wrappers
  import opened Blocks
  import opened FsDisk
  import opened Counting

  /** The blocks, the current inodes, and the owners of the data blocks. */
  datatype State = State(v: Disk, table: seq<Dinode>, owner: map<nat, Place>)

  ghost predicate FilesOk(s: State) {
    && (forall i :: 0 <= i < |s.table| ==> |s.table[i].addrs| == 13)
    && forall i :: 0 <= i < |s.table| ==> FileOk(s.v, s.table[i])
  }

  /** Everything is in order; inode `open` may be newer in memory than on the disk. */
  ghost predicate StateOk(sb: Super, s: State, open: nat) {
    && RefsOk(sb, s.v, s.table, s.owner) && BitsOk(sb, s.v, s.owner.Keys)
    && TableOk(sb, s.v, s.table, open) && FilesOk(s)
  }

  /** The file of inode `i` has changed, and it may have got new blocks; nothing else is different. */
  ghost predicate OnlyFile(sb: Super, s: State, s': State, i: nat) {
    && |s'.v| == |s.v| && |s'.table| == |s.table| && i < |s.table|
    && (forall j :: 0 <= j < |s.table| && j != i ==> s'.table[j] == s.table[j])
    && s'.table[i] == s.table[i].(addrs := s'.table[i].addrs) && |s.table[i].addrs| == |s'.table[i].addrs| == 13
    && (forall b :: b in s.owner ==> b in s'.owner && s'.owner[b] == s.owner[b])
    && (forall b :: b in s.owner && s.owner[b].ino != i && b < |s.v| ==> s'.v[b] == s.v[b])
    && (forall a: nat :: a < sb.bmapstart && a < |s.v| ==> s'.v[a] == s.v[a])
  }

  lemma OnlyFileThen(sb: Super, s: State, s1: State, s2: State, i: nat)
    requires OnlyFile(sb, s, s1, i) && OnlyFile(sb, s1, s2, i)
    ensures OnlyFile(sb, s, s2, i)
  {
  }

  /** Block `bn` of the file may be new. The other blocks, and the bytes in the blocks that were there, are the same. */
  ghost predicate Extended(sb: Super, s: State, s': State, i: nat, bn: nat) {
    && OnlyFile(sb, s, s', i)
    && (forall m: nat :: m < MAXFILE && m != bn ==> Addr(s'.v, s'.table[i], m) == Addr(s.v, s.table[i], m))
    && (forall m: nat :: m < MAXFILE && Addr(s.v, s.table[i], m) != 0 ==>
          && Addr(s'.v, s'.table[i], m) == Addr(s.v, s.table[i], m)
          && Addr(s.v, s.table[i], m) < |s.v| && s'.v[Addr(s.v, s.table[i], m)] == s.v[Addr(s.v, s.table[i], m)])
  }

  lemma ExtendedThen(sb: Super, s: State, s1: State, s2: State, i: nat, bn: nat)
    requires Extended(sb, s, s1, i, bn) && Extended(sb, s1, s2, i, bn)
    ensures Extended(sb, s, s2, i, bn)
  {
    OnlyFileThen(sb, s, s1, s2, i);
    assert forall m: nat :: m < MAXFILE && Addr(s.v, s.table[i], m) != 0 ==>
             && Addr(s1.v, s1.table[i], m) == Addr(s.v, s.table[i], m)
             && Addr(s2.v, s2.table[i], m) == Addr(s1.v, s1.table[i], m);
  }

  lemma NothingExtended(sb: Super, s: State, i: nat, bn: nat)
    requires StateOk(sb, s, i) && i < |s.table|
    ensures Extended(sb, s, s, i, bn)
  {
    forall m: nat | m < MAXFILE && Addr(s.v, s.table[i], m) != 0
      ensures Addr(s.v, s.table[i], m) < |s.v|
    {
      InRange(sb, s, i, SlotFor(m));
    }
  }

  /** A block in a slot is a data block that the slot owns. */
  lemma InRange(sb: Super, s: State, i: nat, t: nat)
    requires RefsOk(sb, s.v, s.table, s.owner) && i < |s.table| && t < NSLOTS && Slot(s.v, s.table[i], t) != 0
    ensures Slot(s.v, s.table[i], t) in s.owner && s.owner[Slot(s.v, s.table[i], t)] == Place(i, t)
    ensures Nmeta(sb) <= Slot(s.v, s.table[i], t) < sb.size == |s.v|
  {
    assert SlotOwns(s.v, s.table, s.owner, i, t);
    assert OwnedBySlot(sb, s.v, s.table, s.owner, Slot(s.v, s.table[i], t));
  }

  /** An inode that was never used. */
  const NO_INODE: Dinode := Dinode(0, 0, 0, seq(13, _ => 0))

  lemma ZeroInode(at: nat)
    requires at + 16 <= WORDS
    ensures GetInode(ZERO_BLOCK, at) == NO_INODE
  {
    forall j: nat | j < WORDS
      ensures Word(ZERO_BLOCK, j) == 0
    {
      ZeroWords(j);
    }
    var addrs := Words(ZERO_BLOCK, at + 3, 13);
    forall k | 0 <= k < 13
      ensures addrs[k] == 0
    {
      assert addrs[k] == Word(ZERO_BLOCK, at + 3 + k);
    }
    assert addrs == NO_INODE.addrs;
  }

  /** A disk with zeroed inodes, and just the metadata marked in the bitmap, is in order. */
  lemma NewFileSystem(sb: Super, v: Disk, open: nat)
    requires LaidOut(sb, |v|)
    requires forall a: nat :: sb.inodestart <= a < sb.bmapstart ==> v[a] == ZERO_BLOCK
    requires forall b: nat :: b < sb.size ==> (Used(sb, v, b) <==> b < Nmeta(sb))
    ensures StateOk(sb, State(v, seq(sb.ninodes, _ => NO_INODE), map[]), open)
  {
    forall i: nat | i < sb.ninodes
      ensures DiskInode(sb, v, i) == NO_INODE
    {
      ZeroInode(IWord(i));
    }
  }

  /** The size that mkfs gives to a root directory of `n` bytes. */
  function RoundedSize(n: nat): nat { (n / BSIZE + 1) * BSIZE }

  /** If blocks were got for just its bytes, that leaves a hole exactly if the bytes fill their blocks. */
  lemma RootDirectory(v: Disk, x: Dinode, n: nat)
    requires |x.addrs| == 13 && RoundedSize(n) <= MAXFILE * BSIZE
    requires forall bn: nat :: bn < MAXFILE ==> (Addr(v, x, bn) != 0 <==> bn * BSIZE < n)
    ensures NoHoles(v, x, RoundedSize(n)) <==> n % BSIZE != 0
  {
    hide Addr;
    var last := n / BSIZE;
    if n % BSIZE == 0 {
      assert last * BSIZE == n && last < MAXFILE;
      assert Addr(v, x, last) == 0;
    } else {
      forall bn: nat | bn < MAXFILE && bn * BSIZE < RoundedSize(n)
        ensures Addr(v, x, bn) != 0
      {
        assert bn <= last;
      }
    }
  }

  // ---------------------------------------------------------------------------
  // A new block

  /** `balloc`: a free block is marked and zeroed. Nobody notices. */
  lemma Allocated(sb: Super, s: State, open: nat, b: nat, v': Disk)
    requires StateOk(sb, s, open) && b < sb.size && !Used(sb, s.v, b)
    requires v' == Mark(sb, s.v, b, true)[b := ZERO_BLOCK]
    ensures b !in s.owner && Nmeta(sb) <= b < |v'| == |s.v| == sb.size && v'[b] == ZERO_BLOCK
    ensures RefsOk(sb, v', s.table, s.owner) && BitsOk(sb, v', s.owner.Keys + {b}) && TableOk(sb, v', s.table, open)
    ensures forall c :: c in s.owner && c < |s.v| ==> v'[c] == s.v[c]
    ensures forall a: nat :: a < sb.bmapstart ==> v'[a] == s.v[a]
    ensures forall i: nat, t: nat :: i < |s.table| && t < NSLOTS ==> Slot(v', s.table[i], t) == Slot(s.v, s.table[i], t)
  {
    hide TableOk, RefsOk, FilesOk, Used;
    MarkOk(sb, s.v, s.owner.Keys, b, true);
    assert LaidOut(sb, |s.v|);
    assert sb.bmapstart <= BBlock(sb, b) < Nmeta(sb);
    var v1 := Mark(sb, s.v, b, true);
    BitsSame(sb, v1, v', s.owner.Keys + {b});
    assert forall c :: c in s.owner && c < |s.v| ==> v'[c] == s.v[c];
    Owned(sb, s);
    RefsSame(sb, s.v, v', s.table, s.owner);
    InodesHave13(sb, s.v, s.table, open);
    TableSame(sb, s.v, v', s.table, s.table, open);
  }

  lemma Owned(sb: Super, s: State)
    requires RefsOk(sb, s.v, s.table, s.owner)
    ensures forall b :: b in s.owner ==> Nmeta(sb) <= b < |s.v| == sb.size
  {
    assert forall b :: b in s.owner ==> OwnedBySlot(sb, s.v, s.table, s.owner, b);
  }

  lemma InodesHave13(sb: Super, v: Disk, table: seq<Dinode>, open: nat)
    requires TableOk(sb, v, table, open)
    ensures forall i :: 0 <= i < |table| ==> |table[i].addrs| == 13
  {
  }

  /** The files that are in order after the file of inode `i` was extended. */
  lemma FilesAfter(sb: Super, s: State, s': State, i: nat, bn: nat)
    requires StateOk(sb, s, i) && Extended(sb, s, s', i, bn)
    ensures FilesOk(s')
  {
    forall j | 0 <= j < |s'.table|
      ensures |s'.table[j].addrs| == 13 && FileOk(s'.v, s'.table[j])
    {
      if j != i {
        OtherFile(sb, s.v, s'.v, s.table, s.owner, i, j);
      } else {
        assert FileOk(s.v, s.table[i]);
      }
    }
  }

  /** The slots say what was extended. */
  lemma ExtendedBy(sb: Super, s: State, s': State, i: nat, bn: nat)
    requires RefsOk(sb, s.v, s.table, s.owner) && OnlyFile(sb, s, s', i) && bn < MAXFILE
    requires forall u: nat :: u < NSLOTS && u != NDIRECT && (u != SlotFor(bn) || Slot(s.v, s.table[i], u) != 0) ==>
               Slot(s'.v, s'.table[i], u) == Slot(s.v, s.table[i], u)
    requires forall c :: c in s.owner && s.owner[c].slot != NDIRECT && c < |s.v| ==> s'.v[c] == s.v[c]
    ensures Extended(sb, s, s', i, bn)
  {
    hide RefsOk;
    forall m: nat | m < MAXFILE && m != bn
      ensures Addr(s'.v, s'.table[i], m) == Addr(s.v, s.table[i], m)
    {
      assert SlotFor(m) != SlotFor(bn);
    }
    forall m: nat | m < MAXFILE && Addr(s.v, s.table[i], m) != 0
      ensures Addr(s'.v, s'.table[i], m) == Addr(s.v, s.table[i], m) < |s.v|
      ensures s'.v[Addr(s.v, s.table[i], m)] == s.v[Addr(s.v, s.table[i], m)]
    {
      InRange(sb, s, i, SlotFor(m));
    }
  }

  /** A new block in slot `t <= NDIRECT`. */
  lemma AddDirect(sb: Super, s: State, i: nat, t: nat, b: Uint32, s': State, bn: nat)
    requires StateOk(sb, s, i) && i < |s.table| && t <= NDIRECT && |s.table[i].addrs| == 13 && s.table[i].addrs[t] == 0
    requires b < sb.size && !Used(sb, s.v, b) && bn < MAXFILE && (t == bn || t == NDIRECT)
    requires s'.v == Mark(sb, s.v, b, true)[b := ZERO_BLOCK]
    requires s'.table == s.table[i := s.table[i].(addrs := s.table[i].addrs[t := b])]
    requires s'.owner == s.owner[b := Place(i, t)]
    ensures b != 0 && StateOk(sb, s', i) && Extended(sb, s, s', i, bn)
    ensures forall u: nat :: u < NSLOTS ==> Slot(s'.v, s'.table[i], u) == if u == t then b else Slot(s.v, s.table[i], u)
  {
    hide RefsOk, TableOk, FilesOk, Used, Mark, Slot, BitsOk;
    Allocated(sb, s, i, b, s'.v);
    InodesHave13(sb, s.v, s.table, i);
    Owned(sb, s);
    LinkDirect(sb, s'.v, s.table, s.owner, i, t, b, s'.table);
    assert s'.owner.Keys == s.owner.Keys + {b};
    assert OnlyFile(sb, s, s', i);
    assert t == NDIRECT || SlotFor(bn) == t;
    EmptySlot(s.v, s.table[i], t);
    ExtendedBy(sb, s, s', i, bn);
    TableSame(sb, s.v, s'.v, s.table, s'.table, i);
    FilesAfter(sb, s, s', i, bn);
  }

  lemma EmptySlot(v: Disk, x: Dinode, t: nat)
    requires |x.addrs| == 13 && t <= NDIRECT
    ensures Slot(v, x, t) == x.addrs[t]
  {
  }

  /** A new block in entry `k` of the indirect block. */
  lemma AddEntry(sb: Super, s: State, i: nat, k: nat, b: Uint32, v1: Disk, s': State)
    requires StateOk(sb, s, i) && i < |s.table| && k < NINDIRECT && |s.table[i].addrs| == 13 &&
             s.table[i].addrs[NDIRECT] != 0
    requires Slot(s.v, s.table[i], NDIRECT + 1 + k) == 0 && b < sb.size && !Used(sb, s.v, b)
    requires v1 == Mark(sb, s.v, b, true)[b := ZERO_BLOCK]
    requires var ind := s.table[i].addrs[NDIRECT]; ind < |v1| && s'.v == v1[ind := PutWord(v1[ind], k, b)]
    requires s'.table == s.table && s'.owner == s.owner[b := Place(i, NDIRECT + 1 + k)]
    ensures b != 0 && StateOk(sb, s', i) && Extended(sb, s, s', i, NDIRECT + k)
    ensures Addr(s'.v, s'.table[i], NDIRECT + k) == b
  {
    hide RefsOk, TableOk, FilesOk, Used, Mark, Slot, BitsOk, PutWord;
    var ind := s.table[i].addrs[NDIRECT];
    EmptySlot(s.v, s.table[i], NDIRECT);
    InRange(sb, s, i, NDIRECT);
    Allocated(sb, s, i, b, v1);
    InodesHave13(sb, s.v, s.table, i);
    Owned(sb, s);
    LinkEntry(sb, v1, s.table, s.owner, i, k, b, s'.v);
    assert s'.owner.Keys == s.owner.Keys + {b};
    BitsSame(sb, v1, s'.v, s'.owner.Keys);
    OneIndirect(sb, s, i, ind, s'.v);
    assert OnlyFile(sb, s, s', i);
    ExtendedBy(sb, s, s', i, NDIRECT + k);
    TableSame(sb, v1, s'.v, s.table, s'.table, i);
    FilesAfter(sb, s, s', i, NDIRECT + k);
  }

  /** A change of the indirect block of `i` is none of the other files' and none of the data blocks'. */
  lemma OneIndirect(sb: Super, s: State, i: nat, ind: nat, v': Disk)
    requires ind in s.owner && s.owner[ind] == Place(i, NDIRECT) && |v'| == |s.v|
    requires forall c :: c in s.owner && c < |s.v| && c != ind ==> v'[c] == s.v[c]
    ensures forall c :: c in s.owner && c < |s.v| && (s.owner[c].ino != i || s.owner[c].slot != NDIRECT) ==>
              v'[c] == s.v[c]
  {
  }

  // ---------------------------------------------------------------------------
  // New bytes

  /** Data goes into block `bn` of the file, which is there. */
  lemma DataWritten(sb: Super, s: State, i: nat, bn: nat, data: Block, s': State)
    requires StateOk(sb, s, i) && i < |s.table| && bn < MAXFILE && |s.table[i].addrs| == 13 &&
             Addr(s.v, s.table[i], bn) != 0
    requires var b := Addr(s.v, s.table[i], bn); b < |s.v| && s' == s.(v := s.v[b := data])
    ensures StateOk(sb, s', i) && OnlyFile(sb, s, s', i)
    ensures forall m: nat :: m < MAXFILE ==> Addr(s'.v, s'.table[i], m) == Addr(s.v, s.table[i], m)
    ensures forall n: nat :: n < MAXFILE * BSIZE ==>
              ByteAt(s'.v, s'.table[i], n) == if n / BSIZE == bn then data[n % BSIZE] else ByteAt(s.v, s.table[i], n)
  {
    hide RefsOk, TableOk, FilesOk, Slot, BitsOk;
    InRange(sb, s, i, SlotFor(bn));
    InodesHave13(sb, s.v, s.table, i);
    Owned(sb, s);
    RefsSame(sb, s.v, s'.v, s.table, s.owner);
    assert LaidOut(sb, |s.v|) by { LaidOutOf(sb, s.v, s.owner.Keys); }
    BitsSame(sb, s.v, s'.v, s.owner.Keys);
    TableSame(sb, s.v, s'.v, s.table, s.table, i);
    forall n: nat | n < MAXFILE * BSIZE
      ensures ByteAt(s'.v, s'.table[i], n) == if n / BSIZE == bn then data[n % BSIZE] else ByteAt(s.v, s.table[i], n)
    {
      DataByte(sb, s, i, bn, data, n);
    }
    FilesStay(sb, s, s', i);
  }

  lemma LaidOutOf(sb: Super, v: Disk, owned: set<nat>)
    requires BitsOk(sb, v, owned)
    ensures LaidOut(sb, |v|)
  {
  }

  lemma DataByte(sb: Super, s: State, i: nat, bn: nat, data: Block, n: nat)
    requires RefsOk(sb, s.v, s.table, s.owner) && i < |s.table| && bn < MAXFILE && |s.table[i].addrs| == 13
    requires Addr(s.v, s.table[i], bn) != 0 && Addr(s.v, s.table[i], bn) < |s.v| && n < MAXFILE * BSIZE
    requires Addr(s.v[Addr(s.v, s.table[i], bn) := data], s.table[i], n / BSIZE) == Addr(s.v, s.table[i], n / BSIZE)
    ensures ByteAt(s.v[Addr(s.v, s.table[i], bn) := data], s.table[i], n) ==
            if n / BSIZE == bn then data[n % BSIZE] else ByteAt(s.v, s.table[i], n)
  {
    hide RefsOk, Slot;
    var c := Addr(s.v, s.table[i], n / BSIZE);
    if c == Addr(s.v, s.table[i], bn) {
      OneSlot(sb, s.v, s.table, s.owner, i, SlotFor(n / BSIZE), i, SlotFor(bn));
    }
  }

  lemma FilesStay(sb: Super, s: State, s': State, i: nat)
    requires StateOk(sb, s, i) && OnlyFile(sb, s, s', i)
    requires forall m: nat :: m < MAXFILE ==> Addr(s'.v, s'.table[i], m) == Addr(s.v, s.table[i], m)
    ensures FilesOk(s')
  {
    forall j | 0 <= j < |s'.table|
      ensures |s'.table[j].addrs| == 13 && FileOk(s'.v, s'.table[j])
    {
      if j != i {
        OtherFile(sb, s.v, s'.v, s.table, s.owner, i, j);
      } else {
        assert FileOk(s.v, s.table[i]);
      }
    }
  }

  // ---------------------------------------------------------------------------
  // The loop of writei

  function Max(a: nat, b: nat): nat { if a < b then b else a }

  /** The first `tot` bytes of `src` are in the file at `off`, and the rest of the file is as it was. */
  ghost predicate Written(sb: Super, s0: State, s: State, i: nat, off: nat, src: seq<Byte>, tot: nat) {
    && OnlyFile(sb, s0, s, i) && tot <= |src| && off <= s0.table[i].size && off + |src| <= MAXFILE * BSIZE
    && var end := Max(s0.table[i].size, off + tot);
       && NoHoles(s.v, s.table[i], end)
       && (forall n: nat :: n < end ==>
             ByteAt(s.v, s.table[i], n) == if off <= n < off + tot then src[n - off] else ByteAt(s0.v, s0.table[i], n))
       && (off + tot <= s0.table[i].size ==> s.table[i] == s0.table[i])
  }

  lemma NothingWritten(sb: Super, s: State, i: nat, off: nat, src: seq<Byte>)
    requires StateOk(sb, s, i) && i < |s.table| && off <= s.table[i].size && off + |src| <= MAXFILE * BSIZE
    ensures Written(sb, s, s, i, off, src, 0)
  {
    assert FileOk(s.v, s.table[i]);
  }

  /** How many bytes one turn of the loop moves. */
  function Chunk(off: nat, n: nat): nat {
    Min(n, BSIZE - off % BSIZE)
  }

  /** One turn of the loop: `s1` is after `bmap`, `s2` after the bytes are in the block. */
  lemma WriteStep(sb: Super, s0: State, s: State, s1: State, s2: State, i: nat, off: nat, src: seq<Byte>, tot: nat)
    requires Written(sb, s0, s, i, off, src, tot) && tot < |src|
    requires var bn := (off + tot) / BSIZE;
             && Extended(sb, s, s1, i, bn) && (Addr(s.v, s.table[i], bn) != 0 ==> s1 == s) &&
                Addr(s1.v, s1.table[i], bn) != 0
             && Addr(s1.v, s1.table[i], bn) < |s1.v|
    requires OnlyFile(sb, s1, s2, i) && s2.table == s1.table
    requires var bn, at, m := (off + tot) / BSIZE, (off + tot) % BSIZE, Chunk(off + tot, |src| - tot);
             var was := s1.v[Addr(s1.v, s1.table[i], bn)];
             && (forall k: nat :: k < MAXFILE ==> Addr(s2.v, s2.table[i], k) == Addr(s1.v, s1.table[i], k))
             && (forall n: nat :: n < MAXFILE * BSIZE && n / BSIZE != bn ==>
                 ByteAt(s2.v, s2.table[i], n) == ByteAt(s1.v, s1.table[i], n))
             && (forall n: nat :: n < MAXFILE * BSIZE && n / BSIZE == bn ==>
                   ByteAt(s2.v, s2.table[i], n) == if at <= n % BSIZE < at + m then src[tot + n % BSIZE - at]
                     else was[n % BSIZE])
    ensures Written(sb, s0, s2, i, off, src, tot + Chunk(off + tot, |src| - tot))
  {
    hide Addr, ByteAt;
    var m, size := Chunk(off + tot, |src| - tot), s0.table[i].size;
    var bn := (off + tot) / BSIZE;
    OnlyFileThen(sb, s0, s, s1, i);
    OnlyFileThen(sb, s0, s1, s2, i);
    forall k: nat | k < MAXFILE && k * BSIZE < Max(size, off + tot + m)
      ensures Addr(s2.v, s2.table[i], k) != 0
    {
      assert k != bn ==> k * BSIZE < Max(size, off + tot) && Addr(s.v, s.table[i], k) != 0;
    }
    forall n: nat | n < Max(size, off + tot + m)
      ensures ByteAt(s2.v, s2.table[i], n) == if off <= n < off + tot + m then src[n - off]
              else ByteAt(s0.v, s0.table[i], n)
    {
      WriteByte(sb, s0, s, s1, s2, i, off, src, tot, n);
    }
    assert off + tot + m <= size ==> bn * BSIZE < Max(size, off + tot) && Addr(s.v, s.table[i], bn) != 0;
  }

  /** One turn with the data that the loop puts together. */
  lemma WriteTurn(sb: Super, s0: State, s: State, s1: State, s2: State, i: nat, off: nat, src: seq<Byte>, tot: nat,
                  data: Block)
    requires Written(sb, s0, s, i, off, src, tot) && tot < |src| && StateOk(sb, s1, i)
    requires var bn := (off + tot) / BSIZE;
             && Extended(sb, s, s1, i, bn) && (Addr(s.v, s.table[i], bn) != 0 ==> s1 == s) &&
                Addr(s1.v, s1.table[i], bn) != 0
             && Addr(s1.v, s1.table[i], bn) < |s1.v|
    requires var bn, at, m := (off + tot) / BSIZE, (off + tot) % BSIZE, Chunk(off + tot, |src| - tot);
             var b := Addr(s1.v, s1.table[i], bn);
             && data == s1.v[b][..at] + src[tot..tot + m] + s1.v[b][at + m..]
             && s2 == s1.(v := s1.v[b := data])
    ensures StateOk(sb, s2, i) && Written(sb, s0, s2, i, off, src, tot + Chunk(off + tot, |src| - tot))
  {
    hide StateOk, Extended, Written, Addr, ByteAt, OnlyFile;
    Thirteen(sb, s, s1, i, (off + tot) / BSIZE);
    ThereAlready(s0, s, i, off, src, tot, sb);
    DataWritten(sb, s1, i, (off + tot) / BSIZE, data, s2);
    WriteStep(sb, s0, s, s1, s2, i, off, src, tot);
  }

  lemma ThereAlready(s0: State, s: State, i: nat, off: nat, src: seq<Byte>, tot: nat, sb: Super)
    requires Written(sb, s0, s, i, off, src, tot) && tot < |src|
    ensures (off + tot) / BSIZE < MAXFILE
    ensures (off + tot) % BSIZE != 0 || off + tot < s0.table[i].size ==> Addr(s.v, s.table[i], (off + tot) / BSIZE) != 0
  {
    hide Addr;
    assert (off + tot) % BSIZE != 0 || off + tot < s0.table[i].size ==>
             (off + tot) / BSIZE * BSIZE < Max(s0.table[i].size, off + tot);
  }

  lemma Thirteen(sb: Super, s: State, s1: State, i: nat, bn: nat)
    requires Extended(sb, s, s1, i, bn)
    ensures i < |s.table| == |s1.table| && |s1.table[i].addrs| == |s.table[i].addrs| == 13
  {
  }

  lemma WriteByte(sb: Super, s0: State, s: State, s1: State, s2: State, i: nat, off: nat, src: seq<Byte>, tot: nat,
                  n: nat)
    requires Written(sb, s0, s, i, off, src, tot) && tot < |src| && i < |s1.table| == |s2.table| == |s.table| &&
             |s2.v| == |s1.v| == |s.v|
    requires |s1.table[i].addrs| == |s2.table[i].addrs| == 13
    requires n < Max(s0.table[i].size, off + tot + Chunk(off + tot, |src| - tot))
    requires var bn := (off + tot) / BSIZE;
             && Extended(sb, s, s1, i, bn) && (Addr(s.v, s.table[i], bn) != 0 ==> s1 == s)
             && Addr(s1.v, s1.table[i], bn) < |s1.v|
    requires var bn, at, m := (off + tot) / BSIZE, (off + tot) % BSIZE, Chunk(off + tot, |src| - tot);
             var was := s1.v[Addr(s1.v, s1.table[i], bn)];
             && (n / BSIZE != bn ==> ByteAt(s2.v, s2.table[i], n) == ByteAt(s1.v, s1.table[i], n))
             && (n / BSIZE == bn ==>
                   ByteAt(s2.v, s2.table[i], n) == if at <= n % BSIZE < at + m then src[tot + n % BSIZE - at]
                     else was[n % BSIZE])
    ensures ByteAt(s2.v, s2.table[i], n) ==
            if off <= n < off + tot + Chunk(off + tot, |src| - tot) then src[n - off] else ByteAt(s0.v, s0.table[i], n)
  {
    hide Addr, Slot;
    var bn := (off + tot) / BSIZE;
    if !(off + tot <= n < off + tot + Chunk(off + tot, |src| - tot)) {
      assert n < Max(s0.table[i].size, off + tot);
      assert n / BSIZE * BSIZE < Max(s0.table[i].size, off + tot) && Addr(s.v, s.table[i], n / BSIZE) != 0;
      assert ByteAt(s2.v, s2.table[i], n) == ByteAt(s1.v, s1.table[i], n) == ByteAt(s.v, s.table[i], n);
    }
  }

  /** The file after all bytes are written. */
  lemma AllWritten(sb: Super, s0: State, s: State, i: nat, off: nat, src: seq<Byte>)
    requires Written(sb, s0, s, i, off, src, |src|) && off <= s0.table[i].size <= MAXFILE * BSIZE
    ensures var x := s.table[i].(size := Max(s0.table[i].size, off + |src|));
            FileOk(s.v, x) && Contents(s.v, x) == Splice(Contents(s0.v, s0.table[i]), off, src)
  {
    var x := s.table[i].(size := Max(s0.table[i].size, off + |src|));
    forall n: nat | n < MAXFILE * BSIZE
      ensures ByteAt(s.v, x, n) == ByteAt(s.v, s.table[i], n)
    {
      SameAddr(s.v, x, s.table[i], n / BSIZE);
    }
    forall k: nat | k < MAXFILE
      ensures Addr(s.v, x, k) == Addr(s.v, s.table[i], k)
    {
      SameAddr(s.v, x, s.table[i], k);
    }
    assert Contents(s.v, x) == Splice(Contents(s0.v, s0.table[i]), off, src);
  }

  lemma SameAddr(v: Disk, x: Dinode, y: Dinode, k: nat)
    requires |x.addrs| == 13 && x.addrs == y.addrs && k < MAXFILE
    ensures Addr(v, x, k) == Addr(v, y, k)
  {
  }

  // ---------------------------------------------------------------------------
  // iupdate

  /** Files other than `i` are as they were. */
  ghost predicate OthersSame(s: State, s': State, i: nat) {
    && FilesOk(s) && FilesOk(s') && |s'.table| == |s.table|
    && forall j :: 0 <= j < |s.table| && j != i ==>
         s'.table[j] == s.table[j] && Contents(s'.v, s'.table[j]) == Contents(s.v, s.table[j])
  }

  lemma OthersAfter(sb: Super, s: State, s': State, i: nat)
    requires StateOk(sb, s, i) && FilesOk(s') && |s'.v| == |s.v| && |s'.table| == |s.table| && i < |s.table|
    requires forall j :: 0 <= j < |s.table| && j != i ==> s'.table[j] == s.table[j]
    requires forall b :: b in s.owner && s.owner[b].ino != i && b < |s.v| ==> s'.v[b] == s.v[b]
    ensures OthersSame(s, s', i)
  {
    Owned(sb, s);
    forall j | 0 <= j < |s.table| && j != i
      ensures Contents(s'.v, s'.table[j]) == Contents(s.v, s.table[j])
    {
      assert FileOk(s.v, s.table[j]);
      OtherFile(sb, s.v, s'.v, s.table, s.owner, i, j);
    }
  }

  /** Only the size is different. */
  lemma Resized(sb: Super, s: State, i: nat, size: Uint32, s': State)
    requires RefsOk(sb, s.v, s.table, s.owner) && BitsOk(sb, s.v, s.owner.Keys) && TableOk(sb, s.v, s.table, i) &&
             i < |s.table|
    requires forall j :: 0 <= j < |s.table| && j != i ==> FileOk(s.v, s.table[j])
    requires s' == s.(table := s.table[i := s.table[i].(size := size)]) && FileOk(s.v, s'.table[i])
    ensures StateOk(sb, s', i)
  {
    hide BitsOk, FileOk, Entry, GetInode;
    forall j: nat, t: nat | j < |s.table| && t < NSLOTS
      ensures SlotOwns(s.v, s'.table, s.owner, j, t)
    {
      assert SlotOwns(s.v, s.table, s.owner, j, t);
      assert Slot(s.v, s'.table[j], t) == Slot(s.v, s.table[j], t);
    }
    forall b | b in s.owner
      ensures OwnedBySlot(sb, s.v, s'.table, s.owner, b)
    {
      assert OwnedBySlot(sb, s.v, s.table, s.owner, b);
    }
  }

  /** iupdate brings the disk up to date. */
  lemma Updated(sb: Super, s: State, i: nat, s': State)
    requires StateOk(sb, s, i) && i < |s.table| == sb.ninodes && |s.table[i].addrs| == 13
    requires s' == s.(v := StoreInode(sb, s.v, i, s.table[i]))
    ensures StateOk(sb, s', i) && TableOk(sb, s'.v, s.table, |s.table|) && |s'.v| == |s.v|
    ensures forall b :: b in s.owner && b < |s.v| ==> s'.v[b] == s.v[b]
    ensures forall j :: 0 <= j < |s.table| ==>
              && |s.table[j].addrs| == 13 && FileOk(s.v, s.table[j])
              && Contents(s'.v, s.table[j]) == Contents(s.v, s.table[j])
  {
    hide StoreInode, RefsOk, BitsOk, FilesOk, TableOk, FileOk, Contents;
    LaidOutOf(sb, s.v, s.owner.Keys);
    StoreFrame(sb, s.v, i, s.table[i]);
    TableStored(sb, s.v, s.table, i);
    HigherBlocks(sb, s, i, s'.v);
    TableLess(sb, s'.v, s.table, i);
  }

  lemma TableLess(sb: Super, v: Disk, table: seq<Dinode>, i: nat)
    requires TableOk(sb, v, table, |table|)
    ensures TableOk(sb, v, table, i)
  {
  }

  lemma StoreFrame(sb: Super, v: Disk, i: nat, x: Dinode)
    requires LaidOut(sb, |v|) && i < sb.ninodes && |x.addrs| == 13
    ensures |StoreInode(sb, v, i, x)| == |v|
    ensures forall a: nat :: sb.bmapstart <= a < |v| ==> StoreInode(sb, v, i, x)[a] == v[a]
  {
    hide PutInode;
  }

  /** A change below the bitmap is none of the files'. */
  lemma HigherBlocks(sb: Super, s: State, open: nat, v': Disk)
    requires StateOk(sb, s, open) && |v'| == |s.v| && forall a: nat :: sb.bmapstart <= a < |s.v| ==> v'[a] == s.v[a]
    ensures RefsOk(sb, v', s.table, s.owner) && BitsOk(sb, v', s.owner.Keys) && FilesOk(s.(v := v'))
    ensures forall b :: b in s.owner && b < |s.v| ==> v'[b] == s.v[b]
    ensures forall j :: 0 <= j < |s.table| ==>
              && |s.table[j].addrs| == 13 && FileOk(s.v, s.table[j])
              && Contents(v', s.table[j]) == Contents(s.v, s.table[j])
  {
    hide RefsOk, BitsOk, TableOk;
    Owned(sb, s);
    LaidOutOf(sb, s.v, s.owner.Keys);
    RefsSame(sb, s.v, v', s.table, s.owner);
    BitsSame(sb, s.v, v', s.owner.Keys);
    forall j | 0 <= j < |s.table|
      ensures |s.table[j].addrs| == 13 && FileOk(s.v, s.table[j]) && FileOk(v', s.table[j]) &&
              Contents(v', s.table[j]) == Contents(s.v, s.table[j])
    {
      OtherFile(sb, s.v, v', s.table, s.owner, |s.table|, j);
    }
  }

  /** The end of a write inside the file. */
  lemma FinishSame(sb: Super, s0: State, s: State, i: nat, off: nat, src: seq<Byte>)
    requires StateOk(sb, s0, i) && StateOk(sb, s, i) && i < |s0.table| && TableOk(sb, s0.v, s0.table, |s0.table|)
    requires Written(sb, s0, s, i, off, src, |src|) && off + |src| <= s0.table[i].size
    ensures TableOk(sb, s.v, s.table, |s.table|) && OthersSame(s0, s, i)
    ensures FileOk(s.v, s.table[i]) && FileOk(s0.v, s0.table[i])
    ensures s.table[i] == s0.table[i] && Contents(s.v, s.table[i]) == Splice(Contents(s0.v, s0.table[i]), off, src)
  {
    hide RefsOk, BitsOk, FileOk, Contents, NoHoles;
    InodesHave13(sb, s0.v, s0.table, i);
    TableSame(sb, s0.v, s.v, s0.table, s.table, |s0.table|);
    OthersAfter(sb, s0, s, i);
    ItsSize(s0, i);
    ItsSize(s, i);
    AllWritten(sb, s0, s, i, off, src);
    assert s.table[i].(size := s0.table[i].size) == s.table[i];
  }

  lemma WrittenSize(sb: Super, s0: State, s: State, i: nat, off: nat, src: seq<Byte>)
    requires Written(sb, s0, s, i, off, src, |src|)
    ensures i < |s0.table| == |s.table| && s0.table[i].size == s.table[i].size && off <= s.table[i].size
  {
  }

  lemma ItsSize(s: State, i: nat)
    requires FilesOk(s) && i < |s.table|
    ensures FileOk(s.v, s.table[i]) && s.table[i].size <= MAXFILE * BSIZE && |s.table[i].addrs| == 13
  {
  }

  /** The end of a write past the old end: the new size, and iupdate. */
  lemma FinishGrown(sb: Super, s0: State, s: State, i: nat, off: nat, src: seq<Byte>, s1: State, s2: State)
    requires StateOk(sb, s0, i) && StateOk(sb, s, i) && i < |s0.table| == sb.ninodes && |s.table| == |s0.table|
    requires Written(sb, s0, s, i, off, src, |src|) && s0.table[i].size < off + |src|
    requires s1 == s.(table := s.table[i := s.table[i].(size := off + |src|)]) && |s1.table[i].addrs| == 13
    requires s2 == s1.(v := StoreInode(sb, s1.v, i, s1.table[i]))
    ensures StateOk(sb, s2, i) && TableOk(sb, s2.v, s2.table, |s2.table|) && OthersSame(s0, s2, i)
    ensures FileOk(s2.v, s2.table[i]) && FileOk(s0.v, s0.table[i])
    ensures Contents(s2.v, s2.table[i]) == Splice(Contents(s0.v, s0.table[i]), off, src)
  {
    hide RefsOk, BitsOk, FileOk, Contents, NoHoles, TableOk, StoreInode;
    ItsSize(s0, i);
    AllWritten(sb, s0, s, i, off, src);
    forall j | 0 <= j < |s.table|
      ensures FileOk(s.v, s.table[j])
    {
      ItsSize(s, j);
    }
    Resized(sb, s, i, off + |src|, s1);
    Updated(sb, s1, i, s2);
    Owned(sb, s0);
    OthersAfter(sb, s0, s2, i);
    ItsSize(s2, i);
  }

  // ---------------------------------------------------------------------------
  // readi

  /** Bytes within one block of the file. */
  lemma ReadStep(v: Disk, x: Dinode, off: nat, m: nat)
    requires |x.addrs| == 13 && x.size <= MAXFILE * BSIZE && off + m <= x.size && off % BSIZE + m <= BSIZE && m > 0
    requires Addr(v, x, off / BSIZE) < |v|
    ensures Contents(v, x)[off..off + m] == v[Addr(v, x, off / BSIZE)][off % BSIZE..off % BSIZE + m]
  {
    hide Addr, FirstBytes;
    var block := v[Addr(v, x, off / BSIZE)][off % BSIZE..off % BSIZE + m];
    forall k | 0 <= k < m
      ensures Contents(v, x)[off..off + m][k] == block[k]
    {
      ReadByte(v, x, off, k);
    }
    assert Contents(v, x)[off..off + m] == block;
  }

  lemma ReadByte(v: Disk, x: Dinode, off: nat, k: nat)
    requires |x.addrs| == 13 && x.size <= MAXFILE * BSIZE && off + k < x.size && off % BSIZE + k < BSIZE
    requires Addr(v, x, off / BSIZE) < |v|
    ensures Contents(v, x)[off + k] == v[Addr(v, x, off / BSIZE)][off % BSIZE + k]
  {
    hide Addr;
    assert (off + k) / BSIZE == off / BSIZE && (off + k) % BSIZE == off % BSIZE + k;
    assert Contents(v, x)[off + k] == ByteAt(v, x, off + k);
  }

  // ---------------------------------------------------------------------------
  // What a write logs

  /** Every block that has changed has been logged. */
  ghost predicate AllLogged(v: Disk, logged: set<nat>, v': Disk, logged': set<nat>) {
    && |v'| == |v| && logged <= logged'
    && forall a: nat :: a < |v| && v'[a] != v[a] ==> a in logged'
  }

  lemma AllLoggedThen(v: Disk, l: set<nat>, v1: Disk, l1: set<nat>, v2: Disk, l2: set<nat>)
    requires AllLogged(v, l, v1, l1) && AllLogged(v1, l1, v2, l2)
    ensures AllLogged(v, l, v2, l2)
  {
  }

  lemma NoneLogged(v: Disk, l: set<nat>)
    ensures AllLogged(v, l, v, l)
  {
  }

  lemma OneLogged(v: Disk, l: set<nat>, a: nat, data: Block)
    requires a < |v|
    ensures AllLogged(v, l, v[a := data], l + {a})
  {
  }

  lemma BallocLogged(sb: Super, v: Disk, l: set<nat>, b: nat)
    requires LaidOut(sb, |v|) && b < sb.size
    ensures AllLogged(v, l, Mark(sb, v, b, true)[b := ZERO_BLOCK], l + {BBlock(sb, b), b})
  {
  }

  lemma MarkLogged(sb: Super, v: Disk, l: set<nat>, b: nat, on: bool)
    requires LaidOut(sb, |v|) && b < sb.size
    ensures AllLogged(v, l, Mark(sb, v, b, on), l + {BBlock(sb, b)})
  {
  }

  lemma StoreLogged(sb: Super, v: Disk, l: set<nat>, i: nat, x: Dinode)
    requires LaidOut(sb, |v|) && i < sb.ninodes && |x.addrs| == 13
    ensures AllLogged(v, l, StoreInode(sb, v, i, x), l + {IBlock(sb, i)})
  {
  }

  /** The number of blocks with bytes `off` to `off + n`. */
  function Touched(off: nat, n: nat): nat {
    if n == 0 then 0 else (off + n - 1) / BSIZE - off / BSIZE + 1
  }

  /** Of these blocks, those that may be new: a first one that is not written from its start is there already. */
  function MayBeNew(off: nat, n: nat): nat {
    if n == 0 then 0 else Touched(off, n) - if off % BSIZE != 0 then 1 else 0
  }

  /** Data blocks, the indirect block, a bitmap block for each new block and for the indirect one, and the inode. */
  function LogBudget(off: nat, n: nat): nat {
    Touched(off, n) + 1 + (MayBeNew(off, n) + 1) + 1
  }

  /** The data blocks, the indirect block and the bitmap blocks that a write has logged. */
  datatype Logging = Logging(data: set<nat>, ind: set<nat>, maps: set<nat>)

  ghost function All(l: Logging): set<nat> { l.data + l.ind + l.maps }

  /** The first `n` bytes at `off` have logged no more than this, and no indirect block but `ind`. */
  ghost predicate Within(l: Logging, off: nat, n: nat, ind: nat) {
    && |l.data| <= Touched(off, n) && |l.maps| <= MayBeNew(off, n) + |l.ind|
    && (l.ind == {} || (ind != 0 && l.ind == {ind}))
  }

  lemma NothingLogged(off: nat, logged: set<nat>)
    ensures logged <= logged + All(Logging({}, {}, {}))
    ensures forall ind: nat :: Within(Logging({}, {}, {}), off, 0, ind)
  {
  }

  /** One turn of the loop logs `block`, the bitmap blocks `maps`, and perhaps the indirect block. */
  lemma LogTurn(l: Logging, off: nat, tot: nat, n: nat, ind: nat, ind': nat, block: nat, maps: set<nat>,
                base: set<nat>, before: set<nat>, after: set<nat>) returns (l': Logging)
    requires Within(l, off, tot, ind) && tot < n && (tot == 0 || (off + tot) % BSIZE == 0)
    requires ind != 0 ==> ind' == ind
    requires (off + tot) / BSIZE < NDIRECT ==> ind' == ind
    requires (off + tot) / BSIZE >= NDIRECT ==> ind' != 0
    requires |maps| <= 1 + if (off + tot) / BSIZE >= NDIRECT && ind == 0 then 1 else 0
    requires (off + tot) % BSIZE != 0 ==> maps == {}
    requires before <= base + All(l) && after <= before + maps + {block} + if (off + tot) / BSIZE < NDIRECT then {}
             else {ind'}
    ensures after <= base + All(l')
    ensures 0 < Chunk(off + tot, n - tot) <= n - tot
    ensures tot + Chunk(off + tot, n - tot) == n || (off + tot + Chunk(off + tot, n - tot)) % BSIZE == 0
    ensures Within(l', off, tot + Chunk(off + tot, n - tot), ind')
  {
    hide Touched, MayBeNew;
    TouchedMore(off, tot, n);
    UnionSize(l.data, {block});
    UnionSize(l.maps, maps);
    l' := Logging(l.data + {block}, if (off + tot) / BSIZE >= NDIRECT then {ind'} else l.ind, l.maps + maps);
    assert after <= base + All(l') by {
      AllMore(l, l', if (off + tot) / BSIZE < NDIRECT then {} else {ind'}, block, maps, base, before, after);
    }
  }

  lemma AllMore(l: Logging, l': Logging, ind: set<nat>, block: nat, maps: set<nat>, base: set<nat>, before: set<nat>,
                after: set<nat>)
    requires before <= base + All(l) && after <= before + maps + {block} + ind
    requires l'.data == l.data + {block} && l.ind <= l'.ind && ind <= l'.ind && l'.maps == l.maps + maps
    ensures after <= base + All(l')
  {
  }

  /** What a write has logged in all, with the inode. */
  lemma LogTotal(l: Logging, off: nat, n: nat, ind: nat, iblock: nat, before: set<nat>, after: set<nat>)
    requires Within(l, off, n, ind) && after <= before + All(l) + {iblock}
    ensures |after - before| <= LogBudget(off, n)
  {
    hide Touched, MayBeNew;
    UnionSize(l.data, l.ind);
    UnionSize(l.data + l.ind, l.maps);
    UnionSize(All(l), {iblock});
    Smaller(after - before, All(l) + {iblock});
  }

  /** A chunk of filewrite keeps within the reservation, whatever its offset. */
  lemma ChunkFits(off: nat, n: nat)
    requires n <= 3 * BSIZE
    ensures LogBudget(off, n) <= 10
  {
  }

  lemma TouchedMore(off: nat, tot: nat, n: nat)
    requires tot < n && (tot == 0 || (off + tot) % BSIZE == 0)
    ensures Touched(off, tot + Chunk(off + tot, n - tot)) == Touched(off, tot) + 1
    ensures MayBeNew(off, tot + Chunk(off + tot, n - tot)) == MayBeNew(off, tot) + if tot == 0 &&
            off % BSIZE != 0 then 0 else 1
    ensures 0 < Chunk(off + tot, n - tot) <= n - tot
    ensures tot + Chunk(off + tot, n - tot) == n || (off + tot + Chunk(off + tot, n - tot)) % BSIZE == 0
  {
    var m := Chunk(off + tot, n - tot);
    assert (off + tot + m - 1) / BSIZE == (off + tot) / BSIZE;
  }

  /** A union is no bigger than its parts together. */
  lemma UnionSize(a: set<nat>, b: set<nat>)
    ensures |a + b| <= |a| + |b|
  {
    assert a + b == a + (b - a);
    assert |a + (b - a)| == |a| + |b - a|;
    assert b == (b - a) + (b * a);
    assert |b| == |b - a| + |b * a|;
  }

  // ---------------------------------------------------------------------------
  // itrunc

  /** The blocks of the bitmap. */
  function MapBlocks(sb: Super): set<nat> { Interval(sb.bmapstart, sb.size / BPB + 1) }

  /** Only blocks of the bitmap have been logged. */
  ghost predicate MapsLogged(sb: Super, before: set<nat>, after: set<nat>) {
    after <= before + MapBlocks(sb)
  }

  lemma OneMapLogged(sb: Super, before: set<nat>, after: set<nat>, b: nat)
    requires MapsLogged(sb, before, after) && b < sb.size
    ensures MapsLogged(sb, before, after + {BBlock(sb, b)})
  {
  }

  lemma MapsLoggedThen(sb: Super, before: set<nat>, middle: set<nat>, after: set<nat>)
    requires MapsLogged(sb, before, middle) && MapsLogged(sb, middle, after)
    ensures MapsLogged(sb, before, after)
  {
  }

  /** itrunc logs no more than the bitmap and the inode's block. */
  lemma TruncateTotal(sb: Super, iblock: nat, before: set<nat>, after: set<nat>)
    requires MapsLogged(sb, before, after)
    ensures |after + {iblock} - before| <= sb.size / BPB + 2
  {
    UnionSize(MapBlocks(sb), {iblock});
    Smaller(after + {iblock} - before, MapBlocks(sb) + {iblock});
  }

  /** The blocks of `gone` are marked free, but nothing else has happened. */
  ghost predicate Freeing(sb: Super, s0: State, v: Disk, gone: set<nat>) {
    && |v| == |s0.v| && BitsOk(sb, v, s0.owner.Keys - gone)
    && forall a: nat :: a < |v| && (a < sb.bmapstart || Nmeta(sb) <= a) ==> v[a] == s0.v[a]
  }

  lemma FreeOne(sb: Super, s0: State, v: Disk, gone: set<nat>, b: nat)
    requires Freeing(sb, s0, v, gone) && b in s0.owner && b !in gone
    ensures b < sb.size && LaidOut(sb, |v|) && Used(sb, v, b) && Freeing(sb, s0, Mark(sb, v, b, false), gone + {b})
  {
    assert b in s0.owner.Keys - gone;
    MarkOk(sb, v, s0.owner.Keys - gone, b, false);
    assert s0.owner.Keys - gone - {b} == s0.owner.Keys - (gone + {b});
    assert sb.bmapstart <= BBlock(sb, b) < Nmeta(sb);
  }

  /** The block in slot `t`. */
  ghost function InSlot(owner: map<nat, Place>, i: nat, t: nat): set<nat> {
    set b | b in owner && owner[b] == Place(i, t)
  }

  lemma InSlotIs(sb: Super, s: State, i: nat, t: nat)
    requires RefsOk(sb, s.v, s.table, s.owner) && i < |s.table| && t < NSLOTS
    ensures InSlot(s.owner, i, t) == if Slot(s.v, s.table[i], t) == 0 then {} else {Slot(s.v, s.table[i], t) as nat}
  {
    assert SlotOwns(s.v, s.table, s.owner, i, t);
    forall b | b in InSlot(s.owner, i, t)
      ensures b == Slot(s.v, s.table[i], t)
    {
      assert OwnedBySlot(sb, s.v, s.table, s.owner, b);
    }
    if Slot(s.v, s.table[i], t) == 0 {
      Owned(sb, s);
    }
  }

  /** The blocks of inode `i` in the first `lo` slots and in the first `hi` entries of the indirect block. */
  ghost function Gone(owner: map<nat, Place>, i: nat, lo: nat, hi: nat): set<nat> {
    set b | b in owner && owner[b].ino == i && (owner[b].slot < lo || NDIRECT < owner[b].slot < NDIRECT + 1 + hi)
  }

  lemma GoneMore(owner: map<nat, Place>, i: nat, lo: nat, hi: nat)
    ensures lo < NDIRECT ==> Gone(owner, i, lo + 1, hi) == Gone(owner, i, lo, hi) + InSlot(owner, i, lo)
    ensures lo <= NDIRECT ==> Gone(owner, i, lo, hi + 1) == Gone(owner, i, lo, hi) + InSlot(owner, i, NDIRECT + 1 + hi)
    ensures lo == NDIRECT ==> Gone(owner, i, lo + 1, hi) == Gone(owner, i, lo, hi) + InSlot(owner, i, NDIRECT)
    ensures Gone(owner, i, 0, 0) == {}
    ensures lo <= NDIRECT ==> Gone(owner, i, lo, hi) !! InSlot(owner, i, lo)
    ensures lo <= NDIRECT ==> Gone(owner, i, lo, hi) !! InSlot(owner, i, NDIRECT + 1 + hi)
  {
  }

  /** The indirect block and what is in it are not touched. */
  lemma EntriesStay(sb: Super, s0: State, v: Disk, gone: set<nat>, i: nat)
    requires StateOk(sb, s0, i) && Freeing(sb, s0, v, gone) && i < |s0.table| && |s0.table[i].addrs| == 13
    ensures s0.table[i].addrs[NDIRECT] != 0 ==>
              var ind := s0.table[i].addrs[NDIRECT]; ind < |v| && v[ind] == s0.v[ind] && ind in s0.owner
    ensures forall k: nat :: k < NINDIRECT && s0.table[i].addrs[NDIRECT] != 0 ==>
              s0.table[i].addrs[NDIRECT] < |v| &&
                Slot(s0.v, s0.table[i], NDIRECT + 1 + k) == Word(v[s0.table[i].addrs[NDIRECT]], k)
  {
    hide Word;
    if s0.table[i].addrs[NDIRECT] != 0 {
      assert Slot(s0.v, s0.table[i], NDIRECT) == s0.table[i].addrs[NDIRECT];
      InRange(sb, s0, i, NDIRECT);
    }
  }

  /** Without an indirect block there is nothing in it. */
  lemma NoEntries(sb: Super, s: State, i: nat, hi: nat)
    requires StateOk(sb, s, i) && i < |s.table| && |s.table[i].addrs| == 13 && s.table[i].addrs[NDIRECT] == 0 &&
             hi <= NINDIRECT
    ensures Gone(s.owner, i, NDIRECT, 0) == Gone(s.owner, i, NDIRECT + 1, hi)
  {
    forall b | b in s.owner
      ensures !(s.owner[b].ino == i && s.owner[b].slot >= NDIRECT)
    {
      assert OwnedBySlot(sb, s.v, s.table, s.owner, b);
    }
  }

  /** The owners without inode `i`. */
  ghost function Others(owner: map<nat, Place>, i: nat): map<nat, Place> {
    map b | b in owner && owner[b].ino != i :: owner[b]
  }

  /** All blocks of the inode are free: the empty inode goes to the disk. */
  lemma Truncated(sb: Super, s0: State, v: Disk, i: nat, x: Dinode, s1: State, s2: State)
    requires StateOk(sb, s0, i) && i < |s0.table| == sb.ninodes
    requires Freeing(sb, s0, v, Gone(s0.owner, i, NDIRECT + 1, NINDIRECT))
    requires |x.addrs| == 13 && (forall t :: 0 <= t < 13 ==> x.addrs[t] == 0) && x.size == 0
    requires s1 == State(v, s0.table[i := x], Others(s0.owner, i))
    requires LaidOut(sb, |v|) && s2 == s1.(v := StoreInode(sb, v, i, x))
    ensures StateOk(sb, s2, i) && TableOk(sb, s2.v, s2.table, |s2.table|) && OthersSame(s0, s2, i)
  {
    hide BitsOk, TableOk, StoreInode, OthersSame, FilesOk;
    AllGone(sb, s0, i);
    Owned(sb, s0);
    InodesHave13(sb, s0.v, s0.table, i);
    RefsSame(sb, s0.v, v, s0.table, s0.owner);
    Unlinked(sb, v, s0.table, s0.owner, i, x, s1.owner);
    TableSame(sb, s0.v, v, s0.table, s1.table, i);
    EmptyFile(sb, s0, v, i, x, s1);
    Updated(sb, s1, i, s2);
    OthersAfter(sb, s0, s2, i);
  }

  lemma AllGone(sb: Super, s: State, i: nat)
    requires RefsOk(sb, s.v, s.table, s.owner)
    ensures Others(s.owner, i).Keys == s.owner.Keys - Gone(s.owner, i, NDIRECT + 1, NINDIRECT)
  {
    forall b | b in s.owner && s.owner[b].ino == i
      ensures b in Gone(s.owner, i, NDIRECT + 1, NINDIRECT)
    {
      assert OwnedBySlot(sb, s.v, s.table, s.owner, b);
    }
  }

  lemma EmptyFile(sb: Super, s0: State, v: Disk, i: nat, x: Dinode, s1: State)
    requires StateOk(sb, s0, i) && i < |s0.table| && |v| == |s0.v| && |x.addrs| == 13 && x.size == 0
    requires forall b :: b in s0.owner && b < |v| ==> v[b] == s0.v[b]
    requires s1 == State(v, s0.table[i := x], Others(s0.owner, i))
    ensures FilesOk(s1)
  {
    Owned(sb, s0);
    forall j | 0 <= j < |s1.table|
      ensures |s1.table[j].addrs| == 13 && FileOk(v, s1.table[j])
    {
      if j != i {
        assert FileOk(s0.v, s0.table[j]);
        OtherFile(sb, s0.v, v, s0.table, s0.owner, i, j);
      }
    }
  }

  // ---------------------------------------------------------------------------
  // Several writes

  lemma OthersThen(s: State, s1: State, s2: State, i: nat)
    requires OthersSame(s, s1, i) && OthersSame(s1, s2, i)
    ensures OthersSame(s, s2, i)
  {
  }

  /** One write after the other is one write of all. */
  lemma SpliceThen(file: seq<Byte>, off: nat, a: seq<Byte>, b: seq<Byte>)
    requires off <= |file|
    ensures off + |a| <= |Splice(file, off, a)|
    ensures Splice(Splice(file, off, a), off + |a|, b) == Splice(file, off, a + b)
  {
  }
}

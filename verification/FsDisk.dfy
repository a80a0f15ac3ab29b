/**
 The file system on the disk: the bitmap, the inodes, and which slot of which inode owns a block.

 The blocks are as `bread` gives them. The four short fields of an inode are its first two words.
 */
module FsDisk {
  import opened Wrappers
  import opened Blocks

  const NDIRECT: nat := 12
  const NINDIRECT: nat := 128
  const MAXFILE: nat := 140

  /** The direct blocks, the indirect block, and the blocks in it. */
  const NSLOTS: nat := 141

  /** Bits and inodes in a block. */
  const BPB: nat := 4096
  const IPB: nat := 8

  datatype Super = Super(size: nat, ninodes: nat, inodestart: nat, bmapstart: nat)

  /** The blocks that no file owns: boot, super, log, inodes and bitmap come first. */
  function Nmeta(sb: Super): nat { sb.bmapstart + sb.size / BPB + 1 }

  predicate LaidOut(sb: Super, n: nat) {
    && 1 < sb.inodestart && sb.inodestart + sb.ninodes / IPB < sb.bmapstart
    && Nmeta(sb) <= sb.size == n <= TWO32 - BPB
  }

  // ---------------------------------------------------------------------------
  // The bitmap

  function Bit(x: nat, k: nat): bool {
    if k == 0 then x % 2 == 1 else Bit(x / 2, k - 1)
  }

  function PutBit(x: nat, k: nat, on: bool): nat {
    if k == 0 then x / 2 * 2 + (if on then 1 else 0) else x % 2 + 2 * PutBit(x / 2, k - 1, on)
  }

  function Power2(n: nat): nat {
    if n == 0 then 1 else 2 * Power2(n - 1)
  }

  lemma {:induction false} PutBitBound(x: nat, k: nat, on: bool, n: nat)
    requires x < Power2(n) && k < n
    ensures PutBit(x, k, on) < Power2(n)
  {
    if k > 0 {
      PutBitBound(x / 2, k - 1, on, n - 1);
    }
  }

  lemma {:induction false} BitAfterPut(x: nat, k: nat, on: bool, j: nat)
    ensures Bit(PutBit(x, k, on), j) == if j == k then on else Bit(x, j)
  {
    var y := PutBit(x, k, on);
    if k > 0 {
      assert y % 2 == x % 2 && y / 2 == PutBit(x / 2, k - 1, on);
      if j > 0 {
        BitAfterPut(x / 2, k - 1, on, j - 1);
      }
    } else {
      assert y / 2 == x / 2;
    }
  }

  lemma EightBits()
    ensures Power2(8) == 256
  {
    assert Power2(0) == 1 && Power2(1) == 2 && Power2(2) == 4 && Power2(3) == 8 && Power2(4) == 16;
    assert Power2(5) == 32 && Power2(6) == 64 && Power2(7) == 128;
  }

  /** Bit `k` of a bitmap block. */
  function BlockBit(b: Block, k: nat): bool
    requires k < BPB
  {
    Bit(b[k / 8], k % 8)
  }

  function PutBlockBit(b: Block, k: nat, on: bool): Block
    requires k < BPB
  {
    EightBits();
    PutBitBound(b[k / 8], k % 8, on, 8);
    b[k / 8 := PutBit(b[k / 8], k % 8, on)]
  }

  lemma BlockBitAfterPut(b: Block, k: nat, on: bool, j: nat)
    requires k < BPB && j < BPB
    ensures BlockBit(PutBlockBit(b, k, on), j) == if j == k then on else BlockBit(b, j)
  {
    if j / 8 == k / 8 {
      BitAfterPut(b[k / 8], k % 8, on, j % 8);
    }
  }

  /** The bitmap block with the bit for block `b`. */
  function BBlock(sb: Super, b: nat): nat {
    b / BPB + sb.bmapstart
  }

  predicate Used(sb: Super, v: Disk, b: nat)
    requires LaidOut(sb, |v|) && b < sb.size
  {
    BlockBit(v[BBlock(sb, b)], b % BPB)
  }

  /** The blocks in use are the metadata and the blocks of `owned`. */
  ghost predicate BitsOk(sb: Super, v: Disk, owned: set<nat>) {
    && LaidOut(sb, |v|)
    && (forall b: nat :: b < sb.size ==> (Used(sb, v, b) <==> b < Nmeta(sb) || b in owned))
    && (forall b :: b in owned ==> Nmeta(sb) <= b < sb.size)
  }

  function Mark(sb: Super, v: Disk, b: nat, on: bool): Disk
    requires LaidOut(sb, |v|) && b < sb.size
  {
    v[BBlock(sb, b) := PutBlockBit(v[BBlock(sb, b)], b % BPB, on)]
  }

  lemma UsedAfterMark(sb: Super, v: Disk, b: nat, on: bool, x: nat)
    requires LaidOut(sb, |v|) && b < sb.size && x < sb.size
    ensures Used(sb, Mark(sb, v, b, on), x) == if x == b then on else Used(sb, v, x)
  {
    if BBlock(sb, b) == BBlock(sb, x) {
      BlockBitAfterPut(v[BBlock(sb, b)], b % BPB, on, x % BPB);
    }
  }

  lemma MarkOk(sb: Super, v: Disk, owned: set<nat>, b: nat, on: bool)
    requires BitsOk(sb, v, owned) && Nmeta(sb) <= b < sb.size
    ensures BitsOk(sb, Mark(sb, v, b, on), if on then owned + {b} else owned - {b})
  {
    forall x: nat | x < sb.size
      ensures Used(sb, Mark(sb, v, b, on), x) == if x == b then on else Used(sb, v, x)
    {
      UsedAfterMark(sb, v, b, on, x);
    }
  }

  /** The bitmap is all that counts. */
  lemma BitsSame(sb: Super, v: Disk, v': Disk, owned: set<nat>)
    requires BitsOk(sb, v, owned) && |v'| == |v|
    requires forall a: nat :: sb.bmapstart <= a < Nmeta(sb) ==> v'[a] == v[a]
    ensures BitsOk(sb, v', owned)
  {
    forall b: nat | b < sb.size
      ensures Used(sb, v', b) == Used(sb, v, b)
    {
      assert sb.bmapstart <= BBlock(sb, b) < Nmeta(sb);
    }
  }

  // ---------------------------------------------------------------------------
  // Inodes

  datatype Dinode = Dinode(kind: Uint32, links: Uint32, size: Uint32, addrs: seq<Uint32>)

  function Words(b: Block, at: nat, n: nat): (r: seq<Uint32>)
    requires at + n <= WORDS
    ensures |r| == n && forall i :: 0 <= i < n ==> r[i] == Word(b, at + i)
  {
    if n == 0 then [] else Words(b, at, n - 1) + [Word(b, at + n - 1)]
  }

  function PutWords(b: Block, at: nat, ws: seq<Uint32>): Block
    requires at + |ws| <= WORDS
  {
    if ws == [] then b
    else PutWord(PutWords(b, at, ws[..|ws| - 1]), at + |ws| - 1, ws[|ws| - 1])
  }

  lemma {:induction false} WordsAfterPut(b: Block, at: nat, ws: seq<Uint32>, j: nat)
    requires at + |ws| <= WORDS && j < WORDS
    ensures Word(PutWords(b, at, ws), j) == if at <= j < at + |ws| then ws[j - at] else Word(b, j)
  {
    if ws != [] {
      WordsAfterPut(b, at, ws[..|ws| - 1], j);
      WordAfterPut(PutWords(b, at, ws[..|ws| - 1]), at + |ws| - 1, ws[|ws| - 1], j);
    }
  }

  /** The block with inode `i`, and the first word of the inode in it. */
  function IBlock(sb: Super, i: nat): nat { i / IPB + sb.inodestart }

  function IWord(i: nat): nat { i % IPB * 16 }

  function GetInode(b: Block, at: nat): (r: Dinode)
    requires at + 16 <= WORDS
    ensures |r.addrs| == 13
  {
    Dinode(Word(b, at), Word(b, at + 1), Word(b, at + 2), Words(b, at + 3, 13))
  }

  function PutInode(b: Block, at: nat, x: Dinode): Block
    requires at + 16 <= WORDS && |x.addrs| == 13
  {
    PutWords(PutWord(PutWord(PutWord(b, at, x.kind), at + 1, x.links), at + 2, x.size), at + 3, x.addrs)
  }

  /** An inode reads back as written, and the other inodes of the block stay. */
  lemma InodeAfterPut(b: Block, at: nat, x: Dinode, at': nat)
    requires at + 16 <= WORDS && |x.addrs| == 13 && at' + 16 <= WORDS && (at' == at || at' + 16 <= at || at + 16 <= at')
    ensures GetInode(PutInode(b, at, x), at') == if at' == at then x else GetInode(b, at')
  {
    hide PutWords, Word, PutWord;
    forall j: nat | j < WORDS
      ensures Word(PutInode(b, at, x), j) ==
                if at + 3 <= j < at + 16 then x.addrs[j - at - 3] else if j == at + 2 then x.size
                else if j == at + 1 then x.links else if j == at then x.kind else Word(b, j)
    {
      var b1 := PutWord(b, at, x.kind);
      var b2 := PutWord(b1, at + 1, x.links);
      WordAfterPut(b, at, x.kind, j);
      WordAfterPut(b1, at + 1, x.links, j);
      WordAfterPut(b2, at + 2, x.size, j);
      WordsAfterPut(PutWord(b2, at + 2, x.size), at + 3, x.addrs, j);
    }
    var c := PutInode(b, at, x);
    assert at' == at ==> Words(c, at' + 3, 13) == x.addrs;
    assert at' != at ==> Words(c, at' + 3, 13) == Words(b, at' + 3, 13);
  }

  function DiskInode(sb: Super, v: Disk, i: nat): (r: Dinode)
    requires LaidOut(sb, |v|) && i < sb.ninodes
    ensures |r.addrs| == 13
  {
    GetInode(v[IBlock(sb, i)], IWord(i))
  }

  /** iupdate. */
  function StoreInode(sb: Super, v: Disk, i: nat, x: Dinode): Disk
    requires LaidOut(sb, |v|) && i < sb.ninodes && |x.addrs| == 13
  {
    v[IBlock(sb, i) := PutInode(v[IBlock(sb, i)], IWord(i), x)]
  }

  lemma DiskAfterStore(sb: Super, v: Disk, i: nat, x: Dinode, j: nat)
    requires LaidOut(sb, |v|) && i < sb.ninodes && |x.addrs| == 13 && j < sb.ninodes
    ensures DiskInode(sb, StoreInode(sb, v, i, x), j) == if j == i then x else DiskInode(sb, v, j)
  {
    if IBlock(sb, i) == IBlock(sb, j) {
      InodeAfterPut(v[IBlock(sb, i)], IWord(i), x, IWord(j));
    }
  }

  /** The inodes on the disk are those of the table, but perhaps for inode `open`, which is in memory. */
  ghost predicate TableOk(sb: Super, v: Disk, table: seq<Dinode>, open: nat) {
    && LaidOut(sb, |v|) && |table| == sb.ninodes
    && (forall i :: 0 <= i < |table| ==> |table[i].addrs| == 13)
    && forall i: nat :: i < |table| && i != open ==> DiskInode(sb, v, i) == table[i]
  }

  lemma TableSame(sb: Super, v: Disk, v': Disk, table: seq<Dinode>, table': seq<Dinode>, open: nat)
    requires TableOk(sb, v, table, open) && |v'| == |v| && |table'| == |table|
    requires forall a: nat :: a < sb.bmapstart ==> v'[a] == v[a]
    requires forall i :: 0 <= i < |table| && i != open ==> table'[i] == table[i]
    requires open < |table'| ==> |table'[open].addrs| == 13
    ensures TableOk(sb, v', table', open)
  {
    forall i: nat | i < |table| && i != open
      ensures DiskInode(sb, v', i) == table'[i]
    {
      assert DiskInode(sb, v, i) == table[i];
      assert IBlock(sb, i) < sb.bmapstart;
    }
  }

  lemma TableStored(sb: Super, v: Disk, table: seq<Dinode>, open: nat)
    requires TableOk(sb, v, table, open) && open < |table|
    ensures TableOk(sb, StoreInode(sb, v, open, table[open]), table, |table|)
  {
    var v' := StoreInode(sb, v, open, table[open]);
    forall i: nat | i < |table|
      ensures DiskInode(sb, v', i) == table[i]
    {
      DiskAfterStore(sb, v, open, table[open], i);
    }
  }

  // ---------------------------------------------------------------------------
  // Who owns which block

  /** Entry `k` of an indirect block; block 0 is none. */
  function Entry(v: Disk, ind: nat, k: nat): Uint32
    requires k < NINDIRECT
  {
    if ind == 0 || ind >= |v| then 0 else Word(v[ind], k)
  }

  /** What is in slot `s` of an inode. */
  function Slot(v: Disk, x: Dinode, s: nat): Uint32
    requires |x.addrs| == 13 && s < NSLOTS
  {
    if s <= NDIRECT then x.addrs[s] else Entry(v, x.addrs[NDIRECT], s - NDIRECT - 1)
  }

  datatype Place = Place(ino: nat, slot: nat)

  ghost predicate SlotOwns(v: Disk, table: seq<Dinode>, owner: map<nat, Place>, i: nat, s: nat)
    requires i < |table| && |table[i].addrs| == 13 && s < NSLOTS
  {
    var b := Slot(v, table[i], s);
    b != 0 ==> b in owner && owner[b] == Place(i, s)
  }

  ghost predicate OwnedBySlot(sb: Super, v: Disk, table: seq<Dinode>, owner: map<nat, Place>, b: nat)
    requires b in owner && forall i :: 0 <= i < |table| ==> |table[i].addrs| == 13
  {
    && Nmeta(sb) <= b < sb.size
    && owner[b].ino < |table| && owner[b].slot < NSLOTS && Slot(v, table[owner[b].ino], owner[b].slot) == b
  }

  /** A block is owned just when it is in a slot, and then that is its only slot. */
  ghost predicate RefsOk(sb: Super, v: Disk, table: seq<Dinode>, owner: map<nat, Place>) {
    && LaidOut(sb, |v|)
    && (forall i :: 0 <= i < |table| ==> |table[i].addrs| == 13)
    && (forall i: nat, s: nat :: i < |table| && s < NSLOTS ==> SlotOwns(v, table, owner, i, s))
    && (forall b :: b in owner ==> OwnedBySlot(sb, v, table, owner, b))
  }

  /** No block is in two slots. */
  lemma OneSlot(sb: Super, v: Disk, table: seq<Dinode>, owner: map<nat, Place>, i: nat, s: nat, j: nat, t: nat)
    requires RefsOk(sb, v, table, owner) && i < |table| && s < NSLOTS && j < |table| && t < NSLOTS
    requires Slot(v, table[i], s) == Slot(v, table[j], t) != 0
    ensures i == j && s == t
  {
    assert SlotOwns(v, table, owner, i, s) && SlotOwns(v, table, owner, j, t);
  }

  /** Only the indirect blocks matter. */
  lemma RefsSame(sb: Super, v: Disk, v': Disk, table: seq<Dinode>, owner: map<nat, Place>)
    requires RefsOk(sb, v, table, owner) && |v'| == |v|
    requires forall b :: b in owner && owner[b].slot == NDIRECT ==> v'[b] == v[b]
    ensures RefsOk(sb, v', table, owner)
    ensures forall i: nat, s: nat :: i < |table| && s < NSLOTS ==> Slot(v', table[i], s) == Slot(v, table[i], s)
  {
    forall i: nat, s: nat | i < |table| && s < NSLOTS
      ensures Slot(v', table[i], s) == Slot(v, table[i], s)
    {
      assert SlotOwns(v, table, owner, i, NDIRECT);
      assert Slot(v, table[i], NDIRECT) in owner ==> OwnedBySlot(sb, v, table, owner, Slot(v, table[i], NDIRECT));
    }
    forall i: nat, s: nat | i < |table| && s < NSLOTS
      ensures SlotOwns(v', table, owner, i, s)
    {
      assert SlotOwns(v, table, owner, i, s);
    }
    forall b | b in owner
      ensures OwnedBySlot(sb, v', table, owner, b)
    {
      assert OwnedBySlot(sb, v, table, owner, b);
    }
  }

  /** Block `b` goes into an empty direct slot, or becomes the indirect block. */
  lemma LinkDirect(sb: Super, v: Disk, table: seq<Dinode>, owner: map<nat, Place>, i: nat, s: nat, b: Uint32,
                   table': seq<Dinode>)
    requires RefsOk(sb, v, table, owner) && i < |table| && s <= NDIRECT && table[i].addrs[s] == 0
    requires b !in owner && Nmeta(sb) <= b < sb.size && (s == NDIRECT ==> v[b] == ZERO_BLOCK)
    requires table' == table[i := table[i].(addrs := table[i].addrs[s := b])]
    ensures RefsOk(sb, v, table', owner[b := Place(i, s)])
    ensures forall t: nat :: t < NSLOTS ==> Slot(v, table'[i], t) == if t == s then b else Slot(v, table[i], t)
  {
    var owner' := owner[b := Place(i, s)];
    forall t: nat | t < NSLOTS
      ensures Slot(v, table'[i], t) == if t == s then b else Slot(v, table[i], t)
    {
      if s == NDIRECT && t > NDIRECT { ZeroWords(t - NDIRECT - 1); }
    }
    forall j: nat, t: nat | j < |table'| && t < NSLOTS
      ensures SlotOwns(v, table', owner', j, t)
    {
      assert SlotOwns(v, table, owner, j, t);
    }
    forall c | c in owner'
      ensures OwnedBySlot(sb, v, table', owner', c)
    {
      assert c != b ==> OwnedBySlot(sb, v, table, owner, c);
    }
  }

  /** Block `b` goes into an empty entry of the indirect block. */
  lemma LinkEntry(sb: Super, v: Disk, table: seq<Dinode>, owner: map<nat, Place>, i: nat, k: nat, b: Uint32, v': Disk)
    requires RefsOk(sb, v, table, owner) && i < |table| && k < NINDIRECT && table[i].addrs[NDIRECT] != 0
    requires Slot(v, table[i], NDIRECT + 1 + k) == 0 && b !in owner && Nmeta(sb) <= b < sb.size
    requires var ind := table[i].addrs[NDIRECT]; ind < |v| && v' == v[ind := PutWord(v[ind], k, b)]
    ensures RefsOk(sb, v', table, owner[b := Place(i, NDIRECT + 1 + k)])
    ensures forall t: nat :: t < NSLOTS ==>
              Slot(v', table[i], t) == if t == NDIRECT + 1 + k then b else Slot(v, table[i], t)
  {
    var owner' := owner[b := Place(i, NDIRECT + 1 + k)];
    var ind := table[i].addrs[NDIRECT];
    assert SlotOwns(v, table, owner, i, NDIRECT) && OwnedBySlot(sb, v, table, owner, ind);
    forall t: nat | t < NSLOTS
      ensures Slot(v', table[i], t) == if t == NDIRECT + 1 + k then b else Slot(v, table[i], t)
    {
      if t > NDIRECT { WordAfterPut(v[ind], k, b, t - NDIRECT - 1); }
    }
    forall j: nat, t: nat | j < |table| && t < NSLOTS
      ensures SlotOwns(v', table, owner', j, t)
      ensures j != i ==> Slot(v', table[j], t) == Slot(v, table[j], t)
    {
      assert SlotOwns(v, table, owner, j, t) && SlotOwns(v, table, owner, j, NDIRECT);
    }
    forall c | c in owner'
      ensures OwnedBySlot(sb, v', table, owner', c)
    {
      assert c != b ==> OwnedBySlot(sb, v, table, owner, c);
    }
  }

  /** All blocks of inode `i` are given up. */
  lemma Unlinked(sb: Super, v: Disk, table: seq<Dinode>, owner: map<nat, Place>, i: nat, x: Dinode,
                 owner': map<nat, Place>)
    requires RefsOk(sb, v, table, owner) && i < |table|
    requires |x.addrs| == 13 && forall s :: 0 <= s < 13 ==> x.addrs[s] == 0
    requires owner' == map b | b in owner && owner[b].ino != i :: owner[b]
    ensures RefsOk(sb, v, table[i := x], owner')
  {
    var table' := table[i := x];
    forall j: nat, t: nat | j < |table'| && t < NSLOTS
      ensures SlotOwns(v, table', owner', j, t)
    {
      assert SlotOwns(v, table, owner, j, t);
    }
    forall c | c in owner'
      ensures OwnedBySlot(sb, v, table', owner', c)
    {
      assert OwnedBySlot(sb, v, table, owner, c);
    }
  }

  // ---------------------------------------------------------------------------
  // Contents

  /** The slot of block `bn` of a file. */
  function SlotFor(bn: nat): nat {
    if bn < NDIRECT then bn else bn + 1
  }

  /** Block `bn` of a file; 0 is none. */
  function Addr(v: Disk, x: Dinode, bn: nat): Uint32
    requires |x.addrs| == 13 && bn < MAXFILE
  {
    Slot(v, x, SlotFor(bn))
  }

  function ByteAt(v: Disk, x: Dinode, i: nat): Byte
    requires |x.addrs| == 13 && i < MAXFILE * BSIZE
  {
    var b := Addr(v, x, i / BSIZE);
    if b < |v| then v[b][i % BSIZE] else 0
  }

  function FirstBytes(v: Disk, x: Dinode, n: nat): (r: seq<Byte>)
    requires |x.addrs| == 13 && n <= MAXFILE * BSIZE
    ensures |r| == n && forall i :: 0 <= i < n ==> r[i] == ByteAt(v, x, i)
  {
    if n == 0 then [] else FirstBytes(v, x, n - 1) + [ByteAt(v, x, n - 1)]
  }

  /** A file has the right size and no block below it is missing. */
  ghost predicate NoHoles(v: Disk, x: Dinode, size: nat) {
    && |x.addrs| == 13 && size <= MAXFILE * BSIZE
    && forall bn: nat :: bn < MAXFILE && bn * BSIZE < size ==> Addr(v, x, bn) != 0
  }

  ghost predicate FileOk(v: Disk, x: Dinode) {
    NoHoles(v, x, x.size)
  }

  /** The file as a flat array of bytes. */
  function Contents(v: Disk, x: Dinode): (r: seq<Byte>)
    requires |x.addrs| == 13 && x.size <= MAXFILE * BSIZE
    ensures |r| == x.size
  {
    FirstBytes(v, x, x.size)
  }

  /** `data` written into `file` at `off`. */
  function Splice(file: seq<Byte>, off: nat, data: seq<Byte>): seq<Byte>
    requires off <= |file|
  {
    file[..off] + data + if off + |data| < |file| then file[off + |data|..] else []
  }

  /** Files other than `i` live in blocks of their own. */
  lemma OtherFile(sb: Super, v: Disk, v': Disk, table: seq<Dinode>, owner: map<nat, Place>, i: nat, j: nat)
    requires RefsOk(sb, v, table, owner) && |v'| == |v| && j < |table| && i != j
    requires forall b :: b in owner && owner[b].ino != i ==> v'[b] == v[b]
    requires FileOk(v, table[j])
    ensures FileOk(v', table[j]) && Contents(v', table[j]) == Contents(v, table[j])
  {
    var x := table[j];
    forall s: nat | s < NSLOTS
      ensures Slot(v', x, s) == Slot(v, x, s) &&
              (Slot(v, x, s) != 0 ==> Slot(v, x, s) < |v| && v'[Slot(v, x, s)] == v[Slot(v, x, s)])
    {
      assert SlotOwns(v, table, owner, j, s) && SlotOwns(v, table, owner, j, NDIRECT);
      assert Slot(v, x, s) in owner ==> OwnedBySlot(sb, v, table, owner, Slot(v, x, s));
      assert Slot(v, x, NDIRECT) in owner ==> OwnedBySlot(sb, v, table, owner, Slot(v, x, NDIRECT));
    }
    assert forall bn: nat :: bn < MAXFILE ==> Addr(v', x, bn) == Addr(v, x, bn);
    forall n: nat | n < x.size
      ensures ByteAt(v', x, n) == ByteAt(v, x, n)
    {
      assert Addr(v, x, n / BSIZE) != 0;
    }
    assert Contents(v', x) == Contents(v, x);
  }
}

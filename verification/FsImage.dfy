/**
 The bytes of the disk: what mkfs, which knows nothing of the functions used elsewhere, writes and
 what the kernel takes from it. Each bit, word and field is given by its place and value in bytes.
 */
module FsImage {
  import opened Wrappers
  import opened Blocks
  import opened LogDisk
  import opened FsDisk
  import opened FsState
  import opened FsCode

  // ---------------------------------------------------------------------------
  // Words

  /** The number in four bytes, the least significant one first. */
  function FourAt(b: Block, at: nat): nat
    requires at + 4 <= BSIZE
  {
    b[at] as nat + 256 * b[at + 1] as nat + 65536 * b[at + 2] as nat + 16777216 * b[at + 3] as nat
  }

  function TwoAt(b: Block, at: nat): nat
    requires at + 2 <= BSIZE
  {
    b[at] as nat + 256 * b[at + 1] as nat
  }

  lemma WordBytes(b: Block, i: nat)
    requires i < WORDS
    ensures Word(b, i) == FourAt(b, 4 * i)
  {
    var bytes := b[4 * i..4 * i + 4];
    assert bytes[1..][1..] == bytes[2..] && bytes[2..][1..] == bytes[3..] && bytes[3..][1..] == [];
    assert FromLittle(bytes[3..]) == bytes[3] + 256 * FromLittle([]);
    assert FromLittle(bytes[2..]) == bytes[2] + 256 * FromLittle(bytes[3..]);
    assert FromLittle(bytes[1..]) == bytes[1] + 256 * FromLittle(bytes[2..]);
  }

  /** The header of the log: the count first, and then the numbers. */
  lemma HeaderBytes(h: Block, i: nat)
    requires i < HeaderN(h) <= LOGSIZE
    ensures HeaderN(h) == FourAt(h, 0) && Numbers(h)[i] == FourAt(h, 4 + 4 * i)
  {
    WordBytes(h, 0);
    WordBytes(h, i + 1);
  }

  // ---------------------------------------------------------------------------
  // Inodes and files

  lemma Halves(b: Block, at: nat)
    requires at + 4 <= BSIZE
    ensures FourAt(b, at) % 65536 == TwoAt(b, at) && FourAt(b, at) / 65536 == TwoAt(b, at + 2)
  {
    assert FourAt(b, at) == TwoAt(b, at) + 65536 * TwoAt(b, at + 2);
  }

  /** The inode in the 64 bytes from `at` on. */
  ghost predicate InodeAt(b: Block, at: nat, x: Dinode)
    requires at + 64 <= BSIZE
  {
    && |x.addrs| == 13 && x.size == FourAt(b, at + 8)
    && (forall k :: 0 <= k < 13 ==> x.addrs[k] == FourAt(b, at + 12 + 4 * k))
    && x.kind % 65536 == TwoAt(b, at) && x.kind / 65536 == TwoAt(b, at + 2)
    && x.links % 65536 == TwoAt(b, at + 4) && x.links / 65536 == TwoAt(b, at + 6)
  }

  lemma GetInodeBytes(b: Block, w: nat)
    requires w + 16 <= WORDS
    ensures InodeAt(b, 4 * w, GetInode(b, w))
  {
    hide Word, FourAt, TwoAt;
    WordBytes(b, w);
    WordBytes(b, w + 1);
    WordBytes(b, w + 2);
    Halves(b, 4 * w);
    Halves(b, 4 * w + 4);
    forall k | 0 <= k < 13
      ensures GetInode(b, w).addrs[k] == FourAt(b, 4 * w + 12 + 4 * k)
    {
      WordBytes(b, w + 3 + k);
    }
  }

  /** Where the fields of an inode are: 64 bytes each, eight inodes to a block. */
  lemma InodeBytes(sb: Super, v: Disk, i: nat)
    requires LaidOut(sb, |v|) && i < sb.ninodes
    ensures sb.inodestart + i / 8 < |v|
    ensures InodeAt(v[sb.inodestart + i / 8], i % 8 * 64, DiskInode(sb, v, i))
  {
    hide InodeAt, GetInode;
    GetInodeBytes(v[IBlock(sb, i)], IWord(i));
  }

  /** Where byte `n` of a file is: in a block of the first twelve, or in one that the indirect block names. */
  lemma FileBytes(v: Disk, x: Dinode, n: nat)
    requires FileOk(v, x) && n < x.size && forall k: nat :: k < MAXFILE && Addr(v, x, k) != 0 ==> Addr(v, x, k) < |v|
    requires x.addrs[12] != 0 ==> x.addrs[12] < |v|
    ensures n / 512 < 140 && (n / 512 >= 12 ==> 0 < x.addrs[12] < |v|)
    ensures var a := if n / 512 < 12 then x.addrs[n / 512] else FourAt(v[x.addrs[12]], 4 * (n / 512 - 12));
            0 < a < |v| && Contents(v, x)[n] == v[a][n % 512]
  {
    assert Addr(v, x, n / 512) != 0;
    if n / 512 >= 12 {
      WordBytes(v[x.addrs[12]], n / 512 - 12);
    }
  }

  // ---------------------------------------------------------------------------
  // The bitmap

  lemma {:induction false} HalfPower(x: nat, k: nat)
    requires k > 0
    ensures Power2(k) == 2 * Power2(k - 1) > 0 && x / 2 / Power2(k - 1) == x / Power2(k)
  {
    PowerPositive(k - 1);
    var m := Power2(k - 1);
    var q, r := x / 2 / m, x / 2 % m;
    assert x / 2 == q * m + r;
    assert x == q * (2 * m) + (2 * r + x % 2);
    DivideUnique(x, 2 * m, q, 2 * r + x % 2);
  }

  lemma {:induction false} PowerPositive(k: nat)
    ensures Power2(k) > 0
  {
    if k > 0 {
      PowerPositive(k - 1);
    }
  }

  lemma DivideUnique(x: nat, m: nat, q: nat, r: nat)
    requires m > 0 && r < m && x == q * m + r
    ensures x / m == q
  {
    var d := x / m - q;
    assert d * m == r - x % m;
    assert d >= 1 ==> (d - 1) * m >= 0;
    assert d <= -1 ==> (-d - 1) * m >= 0;
  }

  lemma {:induction false} BitIs(x: nat, k: nat)
    ensures Power2(k) > 0 && (Bit(x, k) <==> x / Power2(k) % 2 == 1)
  {
    if k > 0 {
      BitIs(x / 2, k - 1);
      HalfPower(x, k);
    }
  }

  /** Which bit of which byte says whether a block is in use. */
  lemma UsedBytes(sb: Super, v: Disk, b: nat)
    requires LaidOut(sb, |v|) && b < sb.size
    ensures sb.bmapstart + b / 4096 < |v| && Power2(b % 4096 % 8) > 0
    ensures var k := b % 4096;
            Used(sb, v, b) <==> v[sb.bmapstart + b / 4096][k / 8] / Power2(k % 8) % 2 == 1
  {
    hide Power2, Bit;
    BitIs(v[BBlock(sb, b)][b % BPB / 8], b % BPB % 8);
  }

  /** The bytes of a bitmap block with the first `n` bits set. */
  ghost predicate FirstBits(b: Block, n: nat) {
    && (forall i :: 0 <= i < n / 8 && i < BSIZE ==> b[i] == 255)
    && (n / 8 < BSIZE ==> b[n / 8] == Power2(n % 8) - 1)
    && (forall i :: n / 8 < i < BSIZE ==> b[i] == 0)
  }

  lemma {:induction false} LowBits(m: nat, k: nat)
    ensures Power2(m) > 0 && (Bit(Power2(m) - 1, k) <==> k < m)
  {
    PowerPositive(m);
    if m == 0 {
      NoBits(k);
    } else {
      var h := Power2(m - 1);
      PowerPositive(m - 1);
      assert Power2(m) == 2 * h;
      hide Power2;
      assert (2 * h - 1) / 2 == h - 1 && (2 * h - 1) % 2 == 1;
      if k > 0 {
        LowBits(m - 1, k - 1);
      }
    }
  }

  lemma {:induction false} NoBits(k: nat)
    ensures !Bit(0, k)
  {
    if k > 0 {
      NoBits(k - 1);
    }
  }

  lemma FirstBitsAre(b: Block, n: nat, k: nat)
    requires FirstBits(b, n) && k < BPB
    ensures BlockBit(b, k) <==> k < n
  {
    EightBits();
    if k / 8 < n / 8 {
      LowBits(8, k % 8);
    } else if k / 8 == n / 8 {
      LowBits(n % 8, k % 8);
    } else {
      NoBits(k % 8);
    }
  }

  /** What `|` with bit `k` makes of a byte. */
  function OrBit(x: Byte, k: nat): (y: nat)
    requires k < 8
  {
    PowerPositive(k);
    if x / Power2(k) % 2 == 1 then x else x + Power2(k)
  }

  /** balloc of mkfs: the block that it writes for `used` blocks in use. */
  method MkfsMap(used: nat) returns (buf: Block)
    requires used < BPB
    ensures FirstBits(buf, used)
  {
    buf := ZERO_BLOCK;
    var i := 0;
    while i < used
      invariant 0 <= i <= used && FirstBits(buf, i)
    {
      OneMoreBit(buf, i);
      buf := buf[i / 8 := OrBit(buf[i / 8], i % 8)];
      i := i + 1;
    }
  }

  lemma OneMoreBit(b: Block, n: nat)
    requires FirstBits(b, n) && n < BPB
    ensures 0 <= OrBit(b[n / 8], n % 8) < 256 && FirstBits(b[n / 8 := OrBit(b[n / 8], n % 8)], n + 1)
  {
    OrNext(b[n / 8], n % 8);
    hide Power2, OrBit;
    EightBits();
    assert Power2(0) == 1 by { PowerNone(); }
    assert n % 8 == 7 ==> (n + 1) % 8 == 0 && (n + 1) / 8 == n / 8 + 1;
    assert n % 8 < 7 ==> (n + 1) % 8 == n % 8 + 1 && (n + 1) / 8 == n / 8;
  }

  lemma PowerNone()
    ensures Power2(0) == 1
  {
  }

  lemma OrNext(x: Byte, k: nat)
    requires k < 8 && x == Power2(k) - 1
    ensures 0 <= OrBit(x, k) < 256 && OrBit(x, k) == Power2(k + 1) - 1
  {
    LowBits(k, k);
    BitIs(x, k);
    PowersGrow(k + 1);
    assert Power2(k + 1) == 2 * Power2(k);
    hide Power2, Bit;
  }

  lemma {:induction false} PowersGrow(k: nat)
    requires k <= 8
    ensures Power2(k) <= 256
    decreases 8 - k
  {
    EightBits();
    if k < 8 {
      PowersGrow(k + 1);
    }
  }

  /** The first block that the kernel gets on an image of mkfs is the first one that mkfs has not used. */
  method FirstBalloc(fs: FileSystem, used: nat) returns (r: Option<Uint32>)
    requires LaidOut(fs.sb, |fs.view|) && used < BPB && used < fs.sb.size && FirstBits(fs.view[fs.sb.bmapstart], used)
    modifies fs`view, fs`logged
    ensures r == Some(used)
  {
    ghost var sb, v := fs.sb, fs.view;
    forall b: nat | b <= used
      ensures Used(sb, v, b) <==> b < used
    {
      FirstBitsAre(v[sb.bmapstart], used, b);
    }
    hide FirstBits, BlockBit;
    r := fs.Balloc();
    assert !Used(sb, v, used);
    assert r.Some? && r.value <= used;
  }
}

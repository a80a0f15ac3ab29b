/**
 The file system calls on the content of one inode, which the caller has locked.

 `view` is what `bread` gives; changing a block in it is `bread`, the change, `log_write` and
 `brelse`. The buffer cache and the log below make this an atomic part of an operation.
 */
module FsCode {
  import opened Wrappers
  import opened Blocks
  import opened LogDisk
  import opened FsDisk
  import opened FsState
  import opened FsFiles

  /** How a call ends; a panic stops the machine. */
  datatype Result<+T> = Panic | Error | Done(value: T)

  /** An inode in memory. */
  class Inode {
    const inum: nat
    var kind: Uint32
    var links: Uint32
    var size: Uint32
    var addrs: seq<Uint32>

    function Value(): Dinode
      reads this
    {
      Dinode(kind, links, size, addrs)
    }

    constructor (inum: nat, x: Dinode)
      ensures this.inum == inum && Value() == x
    {
      this.inum := inum;
      kind, links, size, addrs := x.kind, x.links, x.size, x.addrs;
    }
  }

  /** The first `i` of `n` bytes are whole chunks, or all there is. */
  predicate Whole(i: nat, n: int) {
    i % MAXCHUNK == 0 || i == n
  }

  lemma StartsWhole(n: int)
    ensures Whole(0, n)
  {
  }

  lemma NextWhole(i: nat, n: int, n1: nat)
    requires Whole(i, n) && i < n && n1 == Min(n - i, MAXCHUNK)
    ensures Whole(i + n1, n)
  {
  }

  /** What comes after the first `i` of `n` bytes does not fit into the file. */
  predicate DoesNotFit(off: nat, i: nat, n: nat, size: nat) {
    (i == 0 && off > size) || (i <= n && off + i + Min(n - i, MAXCHUNK) > MAXFILE * BSIZE)
  }

  /** The file of inode `i` has `bytes` at `off`, and the rest of it and the other files are as they were. */
  ghost predicate Wrote(s0: State, s: State, i: nat, off: nat, bytes: seq<Byte>) {
    && i < |s0.table| == |s.table| && OthersSame(s0, s, i)
    && FileOk(s0.v, s0.table[i]) && FileOk(s.v, s.table[i])
    && if bytes == [] then s == s0
       else off <= s0.table[i].size && Contents(s.v, s.table[i]) == Splice(Contents(s0.v, s0.table[i]), off, bytes)
  }

  lemma WroteNothing(sb: Super, s: State, i: nat, off: nat)
    requires StateOk(sb, s, i) && i < |s.table|
    ensures Wrote(s, s, i, off, [])
  {
  }

  lemma WroteMore(s0: State, s: State, s1: State, i: nat, off: nat, a: seq<Byte>, b: seq<Byte>)
    requires Wrote(s0, s, i, off, a) && i < |s1.table| && OthersSame(s, s1, i) && b != [] &&
             off + |a| <= s.table[i].size
    requires FileOk(s.v, s.table[i]) && FileOk(s1.v, s1.table[i])
    requires Contents(s1.v, s1.table[i]) == Splice(Contents(s.v, s.table[i]), off + |a|, b)
    ensures Wrote(s0, s1, i, off, a + b)
  {
    hide FirstBytes;
    OthersThen(s0, s, s1, i);
    if a == [] {
      assert a + b == b;
    } else {
      SpliceThen(Contents(s0.v, s0.table[i]), off, a, b);
    }
  }

  lemma WroteSize(s0: State, s: State, i: nat, off: nat, bytes: seq<Byte>)
    requires Wrote(s0, s, i, off, bytes)
    ensures i < |s0.table| == |s.table| && FileOk(s0.v, s0.table[i]) && FileOk(s.v, s.table[i])
    ensures bytes != [] ==> off + |bytes| <= s.table[i].size
    ensures bytes == [] ==> s == s0
  {
    hide FirstBytes;
    if bytes != [] {
      SpliceThen(Contents(s0.v, s0.table[i]), off, bytes, []);
    }
  }

  class FileSystem {
    const sb: Super
    var view: Disk
    /** All inodes as they are now, and the owners of the data blocks. */
    ghost var table: seq<Dinode>
    ghost var owner: map<nat, Place>
    /** The blocks that the current operation has logged. */
    ghost var logged: set<nat>

    ghost function Now(): State
      reads this
    {
      State(view, table, owner)
    }

    /** All is in order, and `ip` is an inode of this file system. */
    ghost predicate Valid(ip: Inode)
      reads this, ip
    {
      && ip.inum < |table| == sb.ninodes && |ip.addrs| == 13 && table[ip.inum] == ip.Value()
      && StateOk(sb, Now(), ip.inum)
    }

    /** What is in memory is on the disk. */
    ghost predicate Synced()
      reads this
    {
      TableOk(sb, view, table, |table|)
    }

    constructor (sb: Super, view: Disk, ghost table: seq<Dinode>, ghost owner: map<nat, Place>)
      ensures this.sb == sb && Now() == State(view, table, owner) && logged == {}
    {
      this.sb, this.view, this.table, this.owner := sb, view, table, owner;
      logged := {};
    }

    // -------------------------------------------------------------------------
    // Blocks

    /** balloc: the first free block, marked and zeroed. None: there is none, and the kernel panics. */
    method Balloc() returns (r: Option<Uint32>)
      requires LaidOut(sb, |view|)
      modifies this`view, this`logged
      ensures |view| == |old(view)|
      ensures r.None? ==> view == old(view) && logged == old(logged) && forall x: nat :: x < sb.size ==>
                Used(sb, view, x)
      ensures r.Some? ==>
                var b := r.value;
                && b < sb.size && !Used(sb, old(view), b) && (forall x: nat :: x < b ==> Used(sb, old(view), x))
                && view == Mark(sb, old(view), b, true)[b := ZERO_BLOCK]
                && logged == old(logged) + {BBlock(sb, b), b}
    {
      var b := 0;
      while b < sb.size
        invariant 0 <= b && b % BPB == 0
        invariant forall x: nat :: x < b && x < sb.size ==> Used(sb, view, x)
        invariant view == old(view) && logged == old(logged)
      {
        var bp := BBlock(sb, b);
        var bi := 0;
        while bi < BPB && b + bi < sb.size
          invariant 0 <= bi <= BPB
          invariant forall x: nat :: x < b + bi && x < sb.size ==> Used(sb, view, x)
          invariant view == old(view) && logged == old(logged)
        {
          assert BBlock(sb, b + bi) == bp && (b + bi) % BPB == bi;
          if !BlockBit(view[bp], bi) {
            view := view[bp := PutBlockBit(view[bp], bi, true)];
            logged := logged + {bp};
            view := view[b + bi := ZERO_BLOCK];
            logged := logged + {b + bi};
            return Some(b + bi);
          }
          bi := bi + 1;
        }
        b := b + BPB;
      }
      return None;
    }

    /** bfree. False: the block is free already, and the kernel panics. */
    method Bfree(b: nat) returns (ok: bool)
      requires LaidOut(sb, |view|) && b < sb.size
      modifies this`view, this`logged
      ensures ok <==> Used(sb, old(view), b)
      ensures view == (if ok then Mark(sb, old(view), b, false) else old(view))
      ensures logged == old(logged) + if ok then {BBlock(sb, b)} else {}
    {
      var bp := BBlock(sb, b);
      var bi := b % BPB;
      if !BlockBit(view[bp], bi) {
        return false;
      }
      view := view[bp := PutBlockBit(view[bp], bi, false)];
      logged := logged + {bp};
      return true;
    }

    /** iupdate. */
    method Iupdate(ip: Inode)
      requires LaidOut(sb, |view|) && ip.inum < sb.ninodes && |ip.addrs| == 13
      modifies this`view, this`logged
      ensures view == StoreInode(sb, old(view), ip.inum, ip.Value()) && logged == old(logged) + {IBlock(sb, ip.inum)}
    {
      var bp := IBlock(sb, ip.inum);
      var at := IWord(ip.inum);
      var b := view[bp];
      b := PutWord(b, at, ip.kind);
      b := PutWord(b, at + 1, ip.links);
      b := PutWord(b, at + 2, ip.size);
      b := PutWords(b, at + 3, ip.addrs);
      view := view[bp := b];
      logged := logged + {bp};
    }

    // -------------------------------------------------------------------------
    // bmap

    /** A block for direct slot or indirect block `t`. */
    method BallocInto(ip: Inode, t: nat, ghost bn: nat) returns (r: Option<Uint32>)
      requires Valid(ip) && t <= NDIRECT && ip.addrs[t] == 0 && bn < MAXFILE && (t == bn || t == NDIRECT)
      modifies this`view, this`logged, this`table, this`owner, ip`addrs
      ensures AllLogged(old(view), old(logged), view, logged)
      ensures r.None? ==> Now() == old(Now()) && logged == old(logged) && AllUsed()
      ensures r.Some? ==>
                && Valid(ip) && r.value != 0 && ip.addrs == old(ip.addrs)[t := r.value]
                && Extended(sb, old(Now()), Now(), ip.inum, bn)
                && (forall u: nat :: u < NSLOTS ==>
                      Slot(view, ip.Value(), u) == if u == t then r.value else old(Slot(view, ip.Value(), u)))
                && logged == old(logged) + {BBlock(sb, r.value), r.value}
    {
      hide StateOk, Used, Mark, Extended, Slot, AllLogged;
      ghost var s := Now();
      Known(s, ip.inum);
      r := Balloc();
      if r.None? {
        NoneLogged(view, logged);
        return;
      }
      BallocLogged(sb, s.v, old(logged), r.value);
      ip.addrs := ip.addrs[t := r.value];
      table := table[ip.inum := ip.Value()];
      owner := owner[r.value := Place(ip.inum, t)];
      AddDirect(sb, s, ip.inum, t, r.value, Now(), bn);
    }

    ghost predicate AllUsed()
      reads this
    {
      LaidOut(sb, |view|) && forall x: nat :: x < sb.size ==> Used(sb, view, x)
    }

    /** A block for entry `k` of the indirect block. */
    method BallocEntry(ip: Inode, k: nat) returns (r: Option<Uint32>)
      requires Valid(ip) && k < NINDIRECT && ip.addrs[NDIRECT] != 0 && Slot(view, ip.Value(), NDIRECT + 1 + k) == 0
      modifies this`view, this`logged, this`owner
      ensures AllLogged(old(view), old(logged), view, logged)
      ensures r.None? ==> Now() == old(Now()) && logged == old(logged) && AllUsed()
      ensures r.Some? ==>
                && Valid(ip) && r.value != 0 && Extended(sb, old(Now()), Now(), ip.inum, NDIRECT + k)
                && Addr(view, ip.Value(), NDIRECT + k) == r.value
                && logged == old(logged) + {BBlock(sb, r.value), r.value, ip.addrs[NDIRECT]}
    {
      hide StateOk, Used, Mark, Extended, Slot, PutWord, AllLogged;
      ghost var s := Now();
      Known(s, ip.inum);
      Indirect(s, ip.inum);
      var bp := ip.addrs[NDIRECT];
      r := Balloc();
      if r.None? {
        NoneLogged(view, logged);
        return;
      }
      BallocLogged(sb, s.v, old(logged), r.value);
      ghost var v1, l1 := view, logged;
      OneLogged(v1, l1, bp, PutWord(v1[bp], k, r.value));
      view := view[bp := PutWord(view[bp], k, r.value)];
      logged := logged + {bp};
      AllLoggedThen(s.v, old(logged), v1, l1, view, logged);
      owner := owner[r.value := Place(ip.inum, NDIRECT + 1 + k)];
      AddEntry(sb, s, ip.inum, k, r.value, v1, Now());
    }

    /**
     bmap: the block with the data of block `bn` of the file, got from `balloc` if there was none.
     None: there is no free block, or the file cannot be that long, and the kernel panics.
     `maps` are the bitmap blocks that were changed.
     */
    method Bmap(ip: Inode, bn: nat) returns (r: Option<Uint32>, ghost maps: set<nat>)
      requires Valid(ip)
      modifies this`view, this`logged, this`table, this`owner, ip`addrs
      ensures AllLogged(old(view), old(logged), view, logged)
      ensures r.None? ==> bn >= MAXFILE || AllUsed()
      ensures r.Some? ==>
                && bn < MAXFILE && Valid(ip) && Extended(sb, old(Now()), Now(), ip.inum, bn)
                && r.value == Addr(view, ip.Value(), bn) != 0 && r.value < |view|
      ensures bn < MAXFILE && old(Addr(view, ip.Value(), bn)) != 0 ==>
                r.Some? && Now() == old(Now()) && logged == old(logged) && ip.addrs == old(ip.addrs) && maps == {}
      ensures r.Some? ==> logged <= old(logged) + maps + {r.value} + if bn < NDIRECT then {}
              else {ip.addrs[NDIRECT] as nat}
      ensures r.Some? && bn >= NDIRECT ==>
                ip.addrs[NDIRECT] != 0 && (old(ip.addrs[NDIRECT]) != 0 ==> ip.addrs[NDIRECT] == old(ip.addrs[NDIRECT]))
      ensures r.Some? && bn < NDIRECT ==> ip.addrs[NDIRECT] == old(ip.addrs[NDIRECT])
      ensures |maps| <= 1 + if bn >= NDIRECT && old(ip.addrs[NDIRECT]) == 0 then 1 else 0
    {
      hide StateOk, Used, Extended, Slot, AllLogged;
      maps := {};
      NoneLogged(view, logged);
      if bn < NDIRECT {
        ghost var s := Now();
        NothingNew(s, ip.inum, bn);
        var addr := ip.addrs[bn];
        DirectSlot(view, ip.Value(), bn);
        if addr == 0 {
          r := BallocInto(ip, bn, bn);
          if r.None? {
            return;
          }
          maps := {BBlock(sb, r.value)};
          addr := r.value;
          DirectSlot(view, ip.Value(), bn);
        }
        BlockThere(Now(), ip.inum, bn);
        return Some(addr), maps;
      }
      var k := bn - NDIRECT;
      if k < NINDIRECT {
        r, maps := BmapEntry(ip, k);
        return;
      }
      return None, maps;
    }

    /** The second half of bmap: entry `k` of the indirect block. */
    method BmapEntry(ip: Inode, k: nat) returns (r: Option<Uint32>, ghost maps: set<nat>)
      requires Valid(ip) && k < NINDIRECT
      modifies this`view, this`logged, this`table, this`owner, ip`addrs
      ensures AllLogged(old(view), old(logged), view, logged)
      ensures r.None? ==> AllUsed()
      ensures r.Some? ==>
                && Valid(ip) && Extended(sb, old(Now()), Now(), ip.inum, NDIRECT + k)
                && r.value == Addr(view, ip.Value(), NDIRECT + k) != 0 && r.value < |view|
      ensures old(Addr(view, ip.Value(), NDIRECT + k)) != 0 ==>
                r.Some? && Now() == old(Now()) && logged == old(logged) && ip.addrs == old(ip.addrs) && maps == {}
      ensures r.Some? ==> logged <= old(logged) + maps + {r.value} + {ip.addrs[NDIRECT] as nat}
      ensures r.Some? ==>
                ip.addrs[NDIRECT] != 0 && (old(ip.addrs[NDIRECT]) != 0 ==> ip.addrs[NDIRECT] == old(ip.addrs[NDIRECT]))
      ensures |maps| <= 1 + if old(ip.addrs[NDIRECT]) == 0 then 1 else 0
    {
      hide StateOk, Used, Extended, Word, Addr, Slot, AllLogged;
      maps := {};
      NoneLogged(view, logged);
      ghost var s, bn := Now(), NDIRECT + k;
      NothingNew(s, ip.inum, bn);
      EntrySlot(s, ip.inum, k);
      var addr := ip.addrs[NDIRECT];
      if addr == 0 {
        r := BallocInto(ip, NDIRECT, bn);
        if r.None? {
          return;
        }
        maps := {BBlock(sb, r.value)};
        addr := r.value;
      }
      ghost var s1, l1 := Now(), logged;
      EntrySlot(s1, ip.inum, k);
      addr := Word(view[addr], k);
      if addr == 0 {
        r := BallocEntry(ip, k);
        AllLoggedThen(s.v, old(logged), s1.v, l1, view, logged);
        if r.None? {
          return;
        }
        ExtendedThen(sb, s, s1, Now(), ip.inum, bn);
        maps := maps + {BBlock(sb, r.value)};
        addr := r.value;
      }
      BlockThere(Now(), ip.inum, bn);
      return Some(addr), maps;
    }

    lemma DirectSlot(v: Disk, x: Dinode, bn: nat)
      requires |x.addrs| == 13 && bn < NDIRECT
      ensures Addr(v, x, bn) == Slot(v, x, bn) == x.addrs[bn]
    {
    }

    lemma EntrySlot(s: State, i: nat, k: nat)
      requires StateOk(sb, s, i) && i < |s.table| && |s.table[i].addrs| == 13 && k < NINDIRECT
      ensures var ind := s.table[i].addrs[NDIRECT];
              && ind < |s.v|
              && Addr(s.v, s.table[i], NDIRECT + k) == Slot(s.v, s.table[i], NDIRECT + 1 + k) == if ind == 0 then 0
                 else Word(s.v[ind], k)
    {
      Indirect(s, i);
    }

    // -------------------------------------------------------------------------
    // readi and writei

    /** readi: part of the file, shorter at its end. It never needs a block that is not there. */
    method Readi(ip: Inode, off0: Uint32, n0: Uint32) returns (r: Result<seq<Byte>>)
      requires Valid(ip)
      modifies this`view, this`logged, this`table, this`owner, ip`addrs
      ensures Now() == old(Now()) && logged == old(logged) && ip.addrs == old(ip.addrs)
      ensures FileOk(view, ip.Value())
      ensures r == if off0 > ip.size || off0 + n0 >= TWO32 then Error
                   else Done(Contents(view, ip.Value())[off0..Min(off0 + n0, ip.size)])
    {
      hide StateOk, Extended, Contents, Addr, FileOk;
      FileOf(Now(), ip.inum);
      if off0 > ip.size || (off0 + n0) % TWO32 < off0 {
        return Error;
      }
      var n := n0;
      if off0 + n0 > ip.size {
        n := ip.size - off0;
      }
      ghost var x := ip.Value();
      var tot, off, dst := 0, off0, [];
      while tot < n
        invariant 0 <= tot <= n && off == off0 + tot && off0 + n <= x.size && Valid(ip)
        invariant Now() == old(Now()) && logged == old(logged) && ip.addrs == old(ip.addrs)
        invariant dst == Contents(view, x)[off0..off]
      {
        var m := Min(n - tot, BSIZE - off % BSIZE);
        var bytes := ReadBlock(ip, off, m);
        assert Contents(view, x)[off0..off] + Contents(view, x)[off..off + m] == Contents(view, x)[off0..off + m];
        dst := dst + bytes;
        tot, off := tot + m, off + m;
      }
      return Done(dst);
    }

    /** The body of the loop of readi. */
    method ReadBlock(ip: Inode, off: nat, m: nat) returns (bytes: seq<Byte>)
      requires Valid(ip) && 0 < m <= BSIZE - off % BSIZE && off + m <= ip.size <= MAXFILE * BSIZE
      modifies this`view, this`logged, this`table, this`owner, ip`addrs
      ensures Now() == old(Now()) && logged == old(logged) && ip.addrs == old(ip.addrs)
      ensures bytes == Contents(view, ip.Value())[off..off + m]
    {
      hide StateOk, Extended, Contents, Addr, FileOk;
      FileOf(Now(), ip.inum);
      BlockBelow(view, ip.Value(), off);
      var a, maps := Bmap(ip, off / BSIZE);
      assert a.Some?;
      ReadStep(view, ip.Value(), off, m);
      return view[a.value][off % BSIZE..off % BSIZE + m];
    }

    lemma FileOf(s: State, i: nat)
      requires StateOk(sb, s, i) && i < |s.table|
      ensures FileOk(s.v, s.table[i]) && s.table[i].size <= MAXFILE * BSIZE
    {
    }

    lemma BlockBelow(v: Disk, x: Dinode, off: nat)
      requires FileOk(v, x) && off < x.size
      ensures off / BSIZE < MAXFILE && |x.addrs| == 13 && Addr(v, x, off / BSIZE) != 0
    {
      hide Addr;
      assert off / BSIZE * BSIZE < x.size;
    }

    /** The body of the loop of writei. None: the kernel panics. */
    method WriteBlock(ip: Inode, src: seq<Byte>, off: nat, tot: nat, ghost off0: nat, ghost s0: State)
      returns (m: Option<nat>, ghost block: nat, ghost maps: set<nat>)
      requires Valid(ip) && tot < |src| && off == off0 + tot && Written(sb, s0, Now(), ip.inum, off0, src, tot)
      modifies this`view, this`logged, this`table, this`owner, ip`addrs
      ensures AllLogged(old(view), old(logged), view, logged)
      ensures m.None? ==> AllUsed()
      ensures m.Some? ==>
                && m.value == Chunk(off, |src| - tot) && Valid(ip)
                && Written(sb, s0, Now(), ip.inum, off0, src, tot + m.value)
      ensures m.Some? ==> logged <= old(logged) + maps + {block} + if off / BSIZE < NDIRECT then {}
              else {ip.addrs[NDIRECT] as nat}
      ensures m.Some? && off / BSIZE >= NDIRECT ==>
                ip.addrs[NDIRECT] != 0 && (old(ip.addrs[NDIRECT]) != 0 ==> ip.addrs[NDIRECT] == old(ip.addrs[NDIRECT]))
      ensures m.Some? && off / BSIZE < NDIRECT ==> ip.addrs[NDIRECT] == old(ip.addrs[NDIRECT])
      ensures m.Some? ==> |maps| <= 1 + if off / BSIZE >= NDIRECT && old(ip.addrs[NDIRECT]) == 0 then 1 else 0
      ensures m.Some? && (off % BSIZE != 0 || off < s0.table[ip.inum].size) ==> maps == {}
    {
      hide StateOk, Extended, Written, Addr, AllLogged;
      block, maps := 0, {};
      ghost var s := Now();
      ThereAlready(s0, s, ip.inum, off0, src, tot, sb);
      var b;
      b, maps := Bmap(ip, off / BSIZE);
      if b.None? {
        return None, block, maps;
      }
      block := b.value;
      ghost var s1, l1 := Now(), logged;
      var k := Min(|src| - tot, BSIZE - off % BSIZE);
      var data := view[b.value][..off % BSIZE] + src[tot..tot + k] + view[b.value][off % BSIZE + k..];
      view := view[b.value := data];
      logged := logged + {b.value};
      OneLogged(s1.v, l1, b.value, data);
      AllLoggedThen(s.v, old(logged), s1.v, l1, view, logged);
      WriteTurn(sb, s0, s, s1, Now(), ip.inum, off0, src, tot, data);
      return Some(k), block, maps;
    }

    /** writei. A write past the end makes the file longer; the inode is written back only then. */
    method Writei(ip: Inode, src: seq<Byte>, off0: Uint32) returns (r: Result<nat>)
      requires Valid(ip) && Synced() && |src| < TWO32
      modifies this`view, this`logged, this`table, this`owner, ip`addrs, ip`size
      ensures r.Error? <==> off0 > old(ip.size) || off0 + |src| >= TWO32 || off0 + |src| > MAXFILE * BSIZE
      ensures r.Error? ==> Now() == old(Now()) && logged == old(logged) && ip.Value() == old(ip.Value())
      ensures AllLogged(old(view), old(logged), view, logged)
      ensures r.Panic? ==> AllUsed()
      ensures r.Done? ==>
                && r.value == |src| && Valid(ip) && Synced() && OthersSame(old(Now()), Now(), ip.inum)
                && FileOk(old(view), old(ip.Value())) && FileOk(view, ip.Value())
                && Contents(view, ip.Value()) == Splice(old(Contents(view, ip.Value())), off0, src)
      ensures r.Done? ==> |logged - old(logged)| <= LogBudget(off0, |src|)
    {
      hide StateOk, Extended, Written, Addr, FileOk, TableOk, OthersSame, StoreInode, LogBudget, Within, All, Chunk,
           Contents, Splice, AllLogged;
      FileOf(Now(), ip.inum);
      NoneLogged(view, logged);
      if off0 > ip.size || (off0 + |src|) % TWO32 < off0 {
        return Error;
      }
      if off0 + |src| > MAXFILE * BSIZE {
        return Error;
      }
      ghost var s0 := Now();
      var tot, off := 0, off0;
      FsState.NothingWritten(sb, s0, ip.inum, off0, src);
      ghost var l := Logging({}, {}, {});
      NothingLogged(off0, logged);
      while tot < |src|
        invariant 0 <= tot <= |src| && off == off0 + tot && (tot == 0 || tot == |src| || off % BSIZE == 0)
        invariant Valid(ip) && Written(sb, s0, Now(), ip.inum, off0, src, tot) && ip.size == old(ip.size)
        invariant AllLogged(old(view), old(logged), view, logged)
        invariant logged <= old(logged) + All(l) && Within(l, off0, tot, ip.addrs[NDIRECT])
      {
        ghost var ind, before, v := ip.addrs[NDIRECT], logged, view;
        var m, block, maps := WriteBlock(ip, src, off, tot, off0, s0);
        AllLoggedThen(s0.v, old(logged), v, before, view, logged);
        if m.None? {
          return Panic;
        }
        l := LogTurn(l, off0, tot, |src|, ind, ip.addrs[NDIRECT], block, maps, old(logged), before, logged);
        tot, off := tot + m.value, off + m.value;
      }
      ghost var v, before := view, logged;
      Finish(ip, off, src, off0, s0);
      AllLoggedThen(s0.v, old(logged), v, before, view, logged);
      LogTotal(l, off0, |src|, ip.addrs[NDIRECT], IBlock(sb, ip.inum), old(logged), logged);
      return Done(|src|);
    }

    /** The end of writei: the inode gets its new size and goes to the disk. */
    method Finish(ip: Inode, off: Uint32, src: seq<Byte>, ghost off0: nat, ghost s0: State)
      requires Valid(ip) && StateOk(sb, s0, ip.inum) && |s0.table| == |table| && TableOk(sb, s0.v, s0.table, |s0.table|)
      requires Written(sb, s0, Now(), ip.inum, off0, src, |src|) && off == off0 + |src| &&
               ip.size == s0.table[ip.inum].size
      modifies this`view, this`logged, this`table, ip`size
      ensures Valid(ip) && Synced() && OthersSame(s0, Now(), ip.inum)
      ensures FileOk(s0.v, s0.table[ip.inum]) && FileOk(view, ip.Value())
      ensures Contents(view, ip.Value()) == Splice(Contents(s0.v, s0.table[ip.inum]), off0, src)
      ensures AllLogged(old(view), old(logged), view, logged)
      ensures logged <= old(logged) + {IBlock(sb, ip.inum)}
    {
      hide StateOk, Written, FileOk, TableOk, OthersSame, StoreInode, Contents, Splice, AllLogged;
      NoneLogged(view, logged);
      ghost var s := Now();
      FileOf(s, ip.inum);
      WrittenSize(sb, s0, s, ip.inum, off0, src);
      if |src| > 0 && off > ip.size {
        ip.size := off;
        table := table[ip.inum := ip.Value()];
        ghost var s1 := Now();
        Known(s, ip.inum);
        Iupdate(ip);
        StoreLogged(sb, s.v, old(logged), ip.inum, ip.Value());
        FinishGrown(sb, s0, s, ip.inum, off0, src, s1, Now());
      } else {
        FinishSame(sb, s0, s, ip.inum, off0, src);
      }
    }

    // -------------------------------------------------------------------------
    // itrunc

    /** itrunc: exactly the blocks of the inode become free. It never finds one of them free already. */
    method Itrunc(ip: Inode) returns (ok: bool)
      requires Valid(ip)
      modifies this`view, this`logged, this`table, this`owner, ip`addrs, ip`size
      ensures ok && Valid(ip) && Synced() && OthersSame(old(Now()), Now(), ip.inum)
      ensures ip.size == 0 && forall t :: 0 <= t < 13 ==> ip.addrs[t] == 0
      ensures owner == Others(old(owner), ip.inum)
      ensures AllLogged(old(view), old(logged), view, logged)
      ensures old(Synced()) ==> Does(sb, old(view), view, [Truncate(ip.inum)])
      ensures |logged - old(logged)| <= sb.size / BPB + 2
      ensures old(Synced()) && old(logged) == {} && sb.size / BPB + 2 <= MAXOPBLOCKS ==>
                Promised(sb, old(view), Call(view, logged, [Truncate(ip.inum)]))
    {
      hide MapsLogged, Does, StateOk, Freeing, TableOk, OthersSame, Gone, StoreInode, Used, Slot, Mark, AllLogged;
      ghost var s0 := Now();
      FreeDirect(ip, s0);
      if ip.addrs[NDIRECT] != 0 {
        ghost var v, l := view, logged;
        FreeEntries(ip, s0);
        AllLoggedThen(s0.v, old(logged), v, l, view, logged);
        MapsLoggedThen(sb, old(logged), l, logged);
        NextDirect(s0, ip.inum, NDIRECT, NINDIRECT, view);
        v, l := view, logged;
        ok := Bfree(ip.addrs[NDIRECT]);
        assert ok;
        OneMapLogged(sb, old(logged), l, ip.addrs[NDIRECT]);
        MarkLogged(sb, v, l, ip.addrs[NDIRECT], false);
        AllLoggedThen(s0.v, old(logged), v, l, view, logged);
        ip.addrs := ip.addrs[NDIRECT := 0];
      } else {
        NoEntries(sb, s0, ip.inum, NINDIRECT);
      }
      ip.size := 0;
      table := table[ip.inum := ip.Value()];
      owner := Others(owner, ip.inum);
      ghost var s1, l1 := Now(), logged;
      StillLaidOut(s0, view, Gone(s0.owner, ip.inum, NDIRECT + 1, NINDIRECT));
      Iupdate(ip);
      StoreLogged(sb, s1.v, l1, ip.inum, ip.Value());
      AllLoggedThen(s0.v, old(logged), s1.v, l1, view, logged);
      Truncated(sb, s0, s1.v, ip.inum, ip.Value(), s1, Now());
      TruncateDone(sb, s0, Now(), ip.inum);
      TruncateTotal(sb, IBlock(sb, ip.inum), old(logged), l1);
      assert logged - {} == logged;
      return true;
    }

    /** The loop over the direct slots. */
    method FreeDirect(ip: Inode, ghost s0: State)
      requires Valid(ip) && s0 == Now()
      modifies this`view, this`logged, ip`addrs
      ensures |ip.addrs| == 13 && ip.addrs[NDIRECT] == old(ip.addrs)[NDIRECT]
      ensures forall t :: 0 <= t < NDIRECT ==> ip.addrs[t] == 0
      ensures AllLogged(s0.v, old(logged), view, logged) && MapsLogged(sb, old(logged), logged)
      ensures Freeing(sb, s0, view, Gone(s0.owner, ip.inum, NDIRECT, 0))
    {
      hide MapBlocks, StateOk, Freeing, TableOk, Gone, Used, Slot, Mark, AllLogged;
      NoneLogged(view, logged);
      NoneGone(s0, ip.inum);
      var i := 0;
      while i < NDIRECT
        invariant AllLogged(s0.v, old(logged), view, logged) && MapsLogged(sb, old(logged), logged)
        invariant 0 <= i <= NDIRECT && |ip.addrs| == 13 && ip.addrs[i..] == s0.table[ip.inum].addrs[i..]
        invariant forall t :: 0 <= t < i ==> ip.addrs[t] == 0
        invariant Freeing(sb, s0, view, Gone(s0.owner, ip.inum, i, 0))
      {
        hide MapsLogged;
        NextDirect(s0, ip.inum, i, 0, view);
        assert ip.addrs[i] == ip.addrs[i..][0] == s0.table[ip.inum].addrs[i];
        if ip.addrs[i] != 0 {
          ghost var v, l := view, logged;
          var ok := Bfree(ip.addrs[i]);
          assert ok;
          OneMapLogged(sb, old(logged), l, ip.addrs[i]);
          MarkLogged(sb, v, l, ip.addrs[i], false);
          AllLoggedThen(s0.v, old(logged), v, l, view, logged);
          ip.addrs := ip.addrs[i := 0];
        }
        i := i + 1;
      }
      assert ip.addrs[NDIRECT] == ip.addrs[NDIRECT..][0] == s0.table[ip.inum].addrs[NDIRECT];
    }

    /** The loop over the indirect block. */
    method FreeEntries(ip: Inode, ghost s0: State)
      requires |ip.addrs| == 13 && StateOk(sb, s0, ip.inum) && ip.inum < |s0.table| && |s0.table[ip.inum].addrs| == 13
      requires ip.addrs[NDIRECT] == s0.table[ip.inum].addrs[NDIRECT] != 0
      requires Freeing(sb, s0, view, Gone(s0.owner, ip.inum, NDIRECT, 0))
      modifies this`view, this`logged
      ensures AllLogged(old(view), old(logged), view, logged) && MapsLogged(sb, old(logged), logged)
      ensures Freeing(sb, s0, view, Gone(s0.owner, ip.inum, NDIRECT, NINDIRECT))
    {
      hide MapBlocks, StateOk, Freeing, Gone, Used, Slot, Mark, Word, AllLogged;
      NoneLogged(view, logged);
      var j := 0;
      while j < NINDIRECT
        invariant 0 <= j <= NINDIRECT && AllLogged(old(view), old(logged), view, logged)
        invariant MapsLogged(sb, old(logged), logged)
        invariant Freeing(sb, s0, view, Gone(s0.owner, ip.inum, NDIRECT, j))
      {
        EntriesStay(sb, s0, view, Gone(s0.owner, ip.inum, NDIRECT, j), ip.inum);
        NextEntry(s0, ip.inum, j, view);
        var a := Word(view[ip.addrs[NDIRECT]], j);
        if a != 0 {
          ghost var v, l := view, logged;
          var ok := Bfree(a);
          assert ok;
          OneMapLogged(sb, old(logged), l, a);
          MarkLogged(sb, v, l, a, false);
          AllLoggedThen(old(view), old(logged), v, l, view, logged);
        }
        j := j + 1;
      }
    }

    lemma NoneGone(s: State, i: nat)
      requires StateOk(sb, s, i)
      ensures Freeing(sb, s, s.v, Gone(s.owner, i, 0, 0))
    {
      GoneMore(s.owner, i, 0, 0);
      assert s.owner.Keys - {} == s.owner.Keys;
    }

    lemma StillLaidOut(s0: State, v: Disk, gone: set<nat>)
      requires Freeing(sb, s0, v, gone)
      ensures LaidOut(sb, |v|)
    {
    }

    /** The next direct slot, or the indirect block. */
    lemma NextDirect(s: State, i: nat, t: nat, hi: nat, v: Disk)
      requires StateOk(sb, s, i) && i < |s.table| && |s.table[i].addrs| == 13 && t <= NDIRECT &&
               Freeing(sb, s, v, Gone(s.owner, i, t, hi))
      ensures var b := s.table[i].addrs[t];
              && LaidOut(sb, |v|)
              && (b == 0 ==> Freeing(sb, s, v, Gone(s.owner, i, t + 1, hi)))
              && (b != 0 ==>
                    b < sb.size && Used(sb, v, b) && Freeing(sb, s, Mark(sb, v, b, false), Gone(s.owner, i, t + 1, hi)))
    {
      hide Freeing, Used, Mark, Gone;
      StillLaidOut(s, v, Gone(s.owner, i, t, hi));
      GoneMore(s.owner, i, t, hi);
      InSlotIs(sb, s, i, t);
      var b := s.table[i].addrs[t];
      if b != 0 {
        assert b in InSlot(s.owner, i, t);
        FreeOne(sb, s, v, Gone(s.owner, i, t, hi), b);
      } else {
        assert Gone(s.owner, i, t, hi) + {} == Gone(s.owner, i, t, hi);
      }
    }

    lemma NextEntry(s: State, i: nat, j: nat, v: Disk)
      requires StateOk(sb, s, i) && i < |s.table| && |s.table[i].addrs| == 13 && j < NINDIRECT
      requires Freeing(sb, s, v, Gone(s.owner, i, NDIRECT, j))
      ensures var b := Slot(s.v, s.table[i], NDIRECT + 1 + j);
              && LaidOut(sb, |v|)
              && (b == 0 ==> Freeing(sb, s, v, Gone(s.owner, i, NDIRECT, j + 1)))
              && (b != 0 ==>
                    && b < sb.size && Used(sb, v, b)
                    && Freeing(sb, s, Mark(sb, v, b, false), Gone(s.owner, i, NDIRECT, j + 1)))
    {
      hide Freeing, Used, Mark, Gone, Slot;
      StillLaidOut(s, v, Gone(s.owner, i, NDIRECT, j));
      GoneMore(s.owner, i, NDIRECT, j);
      InSlotIs(sb, s, i, NDIRECT + 1 + j);
      var b := Slot(s.v, s.table[i], NDIRECT + 1 + j);
      if b != 0 {
        assert b in InSlot(s.owner, i, NDIRECT + 1 + j);
        FreeOne(sb, s, v, Gone(s.owner, i, NDIRECT, j), b);
      } else {
        assert Gone(s.owner, i, NDIRECT, j) + {} == Gone(s.owner, i, NDIRECT, j);
      }
    }

    lemma NothingNew(s: State, i: nat, bn: nat)
      requires StateOk(sb, s, i) && i < |s.table|
      ensures Extended(sb, s, s, i, bn)
    {
      NothingExtended(sb, s, i, bn);
    }

    lemma BlockThere(s: State, i: nat, bn: nat)
      requires StateOk(sb, s, i) && i < |s.table| && bn < MAXFILE && |s.table[i].addrs| == 13
      ensures Addr(s.v, s.table[i], bn) != 0 ==> Addr(s.v, s.table[i], bn) < |s.v|
    {
      if Addr(s.v, s.table[i], bn) != 0 {
        InRange(sb, s, i, SlotFor(bn));
      }
    }

    lemma Indirect(s: State, i: nat)
      requires StateOk(sb, s, i) && i < |s.table| && |s.table[i].addrs| == 13
      ensures s.table[i].addrs[NDIRECT] != 0 ==>
                Nmeta(sb) <= s.table[i].addrs[NDIRECT] < |s.v| && s.table[i].addrs[NDIRECT] in s.owner
      ensures |s.v| == sb.size
    {
      if s.table[i].addrs[NDIRECT] != 0 {
        assert Slot(s.v, s.table[i], NDIRECT) == s.table[i].addrs[NDIRECT];
        InRange(sb, s, i, NDIRECT);
      }
    }

    lemma Known(s: State, i: nat)
      requires StateOk(sb, s, i)
      ensures LaidOut(sb, |s.v|)
    {
    }
  }

  /** An open file. */
  class File {
    const writable: bool
    var off: Uint32

    constructor (writable: bool)
      ensures this.writable == writable && off == 0
    {
      this.writable, off := writable, 0;
    }
  }

  /** One operation of filewrite: never more blocks are logged than were reserved. */
  method WriteOperation(fs: FileSystem, ip: Inode, f: File, src: seq<Byte>) returns (r: Result<nat>)
    requires fs.Valid(ip) && fs.Synced() && |src| <= MAXCHUNK && f as object != ip as object &&
             f as object != fs as object
    modifies fs, ip`addrs, ip`size, f`off
    ensures |fs.logged| <= MAXOPBLOCKS || r.Panic?
    ensures AllLogged(old(fs.view), {}, fs.view, fs.logged)
    ensures r.Panic? ==> fs.AllUsed()
    ensures r.Error? <==> old(f.off) > old(ip.size) || old(f.off) + |src| > MAXFILE * BSIZE
    ensures r.Error? ==> fs.Now() == old(fs.Now()) && ip.Value() == old(ip.Value()) && f.off == old(f.off)
    ensures r.Done? ==>
              && r.value == |src| && f.off == old(f.off) + |src|
              && fs.Valid(ip) && fs.Synced() && OthersSame(old(fs.Now()), fs.Now(), ip.inum)
              && FileOk(old(fs.view), old(ip.Value())) && FileOk(fs.view, ip.Value())
              && Contents(fs.view, ip.Value()) == Splice(old(Contents(fs.view, ip.Value())), old(f.off), src)
    ensures r.Done? ==>
              Promised(fs.sb, old(fs.view), Call(fs.view, fs.logged, [WriteAt(ip.inum, old(f.off), src)]))
  {
    hide Does, StateOk, FileOk, TableOk, OthersSame, LogBudget, Contents, Splice, AllLogged;
    fs.logged := {};
    ghost var s0 := fs.Now();
    fs.FileOf(s0, ip.inum);
    var n := fs.Writei(ip, src, f.off);
    ChunkFits(f.off, |src|);
    if n.Done? {
      assert fs.logged - {} == fs.logged;
      WriteDone(fs.sb, s0, fs.Now(), ip.inum, f.off, src);
      if n.value > 0 {
        f.off := f.off + n.value;
      }
    }
    return n;
  }

  /**
   filewrite: the data in chunks, each in an operation of its own. `done` bytes were written; if
   that is not all of them, the next chunk does not fit.
   */
  method FileWrite(fs: FileSystem, ip: Inode, f: File, src: seq<Byte>, n: int) returns (r: Result<nat>, ghost done: nat)
    requires fs.Valid(ip) && fs.Synced() && n <= |src| < TWO32 && f as object != ip as object &&
             f as object != fs as object
    modifies fs, ip`addrs, ip`size, f`off
    ensures r.Panic? ==> fs.AllUsed()
    ensures r.Done? ==> f.writable && done == n == r.value
    ensures r.Error? ==> if !f.writable || n < 0 then done == 0
                         else done < n && Whole(done, n) && DoesNotFit(old(f.off), done, n, old(ip.size))
    ensures !r.Panic? ==>
              && fs.Valid(ip) && fs.Synced() && done <= |src| && f.off == old(f.off) + done
              && Wrote(old(fs.Now()), fs.Now(), ip.inum, old(f.off), src[..done])
  {
    hide StateOk, FileOk, TableOk, OthersSame, Contents, Splice, Wrote, Whole;
    ghost var s0, off0 := fs.Now(), f.off;
    done := 0;
    WroteNothing(fs.sb, s0, ip.inum, off0);
    assert src[..0] == [] && Whole(0, n) by { StartsWhole(n); }
    if !f.writable {
      return Error, done;
    }
    var i := 0;
    while i < n
      invariant done == i && 0 <= i <= |src| && (i <= n || i == 0) && Whole(i, n)
      invariant fs.Valid(ip) && fs.Synced() && f.off == off0 + i
      invariant Wrote(s0, fs.Now(), ip.inum, off0, src[..i])
    {
      WroteSize(s0, fs.Now(), ip.inum, off0, src[..i]);
      ghost var s := fs.Now();
      var n1 := n - i;
      if n1 > MAXCHUNK {
        n1 := MAXCHUNK;
      }
      r := WriteOperation(fs, ip, f, src[i..i + n1]);
      if r.Panic? {
        return;
      }
      if r.Error? {
        break;
      }
      assert r.value == n1;
      WroteMore(s0, s, fs.Now(), ip.inum, off0, src[..i], src[i..i + n1]);
      assert src[..i] + src[i..i + n1] == src[..i + n1];
      NextWhole(i, n, n1);
      i := i + r.value;
      done := i;
    }
    return if i == n then Done(n) else Error, done;
  }
}

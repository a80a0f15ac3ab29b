/** A file system seen from outside: the contents of its files, and operations that change them. */
module FsFiles {
  import opened Wrappers
  import opened Blocks
  import opened LogDisk
  import opened FsDisk
  import opened FsState

  /** What one operation does to a file. */
  datatype Job = WriteAt(ino: nat, off: nat, src: seq<Byte>) | Truncate(ino: nat)

  function Do(files: seq<seq<Byte>>, job: Job): seq<seq<Byte>> {
    if job.ino >= |files| then files
    else
      match job
      case WriteAt(i, off, src) => if off <= |files[i]| then files[i := Splice(files[i], off, src)] else files
      case Truncate(i) => files[i := []]
  }

  function DoAll(files: seq<seq<Byte>>, jobs: seq<Job>): seq<seq<Byte>> {
    if jobs == [] then files else Do(DoAll(files, jobs[..|jobs| - 1]), jobs[|jobs| - 1])
  }

  lemma {:induction false} DoBoth(files: seq<seq<Byte>>, jobs: seq<Job>, more: seq<Job>)
    ensures DoAll(files, jobs + more) == DoAll(DoAll(files, jobs), more)
  {
    if more == [] {
      assert jobs + more == jobs;
    } else {
      var init := more[..|more| - 1];
      DoBoth(files, jobs, init);
      assert (jobs + more)[..|jobs + more| - 1] == jobs + init;
    }
  }

  lemma DoOne(files: seq<seq<Byte>>, jobs: seq<Job>, job: Job)
    ensures DoAll(files, jobs + [job]) == Do(DoAll(files, jobs), job)
  {
    assert (jobs + [job])[..|jobs|] == jobs;
  }

  // ---------------------------------------------------------------------------
  // One file among others

  /** The jobs for file `i`. */
  function For(jobs: seq<Job>, i: nat): seq<Job> {
    if jobs == [] then []
    else For(jobs[..|jobs| - 1], i) + if jobs[|jobs| - 1].ino == i then [jobs[|jobs| - 1]] else []
  }

  lemma {:induction false} ForPrefix(jobs: seq<Job>, more: seq<Job>, i: nat)
    ensures For(jobs, i) <= For(jobs + more, i)
  {
    if more == [] {
      assert jobs + more == jobs;
    } else {
      ForPrefix(jobs, more[..|more| - 1], i);
      assert (jobs + more)[..|jobs + more| - 1] == jobs + more[..|more| - 1];
    }
  }

  /** What becomes of a file depends on the jobs for it. */
  lemma {:induction false} ItsJobs(files: seq<seq<Byte>>, jobs: seq<Job>, i: nat)
    requires i < |files|
    ensures |DoAll(files, jobs)| == |DoAll(files, For(jobs, i))| == |files|
    ensures DoAll(files, jobs)[i] == DoAll(files, For(jobs, i))[i]
  {
    if jobs != [] {
      var init, job := jobs[..|jobs| - 1], jobs[|jobs| - 1];
      ItsJobs(files, init, i);
      assert For(jobs, i) == if job.ino == i then For(init, i) + [job] else For(init, i);
      DoOne(files, For(init, i), job);
      hide For, Splice;
    }
  }

  /** What one operation of filewrite writes at most. */
  const MAXCHUNK: nat := (MAXOPBLOCKS - 1 - 1 - 2) / 2 * 512

  /** The first `n` operations of a call of filewrite. */
  function Chunks(i: nat, off: nat, src: seq<Byte>, n: nat): (jobs: seq<Job>)
    requires n == 0 || (n - 1) * MAXCHUNK < |src|
    ensures |jobs| == n
  {
    if n == 0 then []
    else
      Chunks(i, off, src, n - 1)
      + [WriteAt(i, off + (n - 1) * MAXCHUNK, src[(n - 1) * MAXCHUNK..Min(n * MAXCHUNK, |src|)])]
  }

  lemma {:induction false} FirstChunks(i: nat, off: nat, src: seq<Byte>, n: nat, k: nat)
    requires (n == 0 || (n - 1) * MAXCHUNK < |src|) && k <= n
    ensures Chunks(i, off, src, n)[..k] == Chunks(i, off, src, k)
  {
    if k < n {
      FirstChunks(i, off, src, n - 1, k);
    }
  }

  /** They write the first bytes. */
  lemma {:induction false} ChunksWrite(files: seq<seq<Byte>>, i: nat, off: nat, src: seq<Byte>, n: nat)
    requires n == 0 || (n - 1) * MAXCHUNK < |src|
    requires i < |files| && off <= |files[i]|
    ensures DoAll(files, Chunks(i, off, src, n)) ==
              files[i := Splice(files[i], off, src[..Min(n * MAXCHUNK, |src|)])]
  {
    hide Splice, DoAll, Do;
    if n == 0 {
      SpliceNothing(files, i, off);
    } else {
      var m, k := (n - 1) * MAXCHUNK, Min(n * MAXCHUNK, |src|);
      var init, last := Chunks(i, off, src, n - 1), WriteAt(i, off + m, src[m..k]);
      assert Chunks(i, off, src, n) == init + [last];
      ChunksWrite(files, i, off, src, n - 1);
      hide Chunks;
      assert src[..Min(m, |src|)] == src[..m];
      OneChunk(files, i, off, src, m, k);
      DoOne(files, init, last);
    }
  }

  lemma SpliceNothing(files: seq<seq<Byte>>, i: nat, off: nat)
    requires i < |files| && off <= |files[i]|
    ensures files[i := Splice(files[i], off, [])] == files == DoAll(files, [])
  {
    assert Splice(files[i], off, []) == files[i];
  }

  lemma OneChunk(files: seq<seq<Byte>>, i: nat, off: nat, src: seq<Byte>, m: nat, k: nat)
    requires i < |files| && off <= |files[i]| && m <= k <= |src|
    ensures Do(files[i := Splice(files[i], off, src[..m])], WriteAt(i, off + m, src[m..k])) ==
              files[i := Splice(files[i], off, src[..k])]
  {
    SpliceThen(files[i], off, src[..m], src[m..k]);
    assert src[..m] + src[m..k] == src[..k];
    hide Splice;
  }

  /** For file `i` the jobs are the first `n` operations of a call of filewrite. */
  ghost predicate ChunksFor(jobs: seq<Job>, i: nat, off: nat, src: seq<Byte>, n: nat) {
    (n == 0 || (n - 1) * MAXCHUNK < |src|) && For(jobs, i) == Chunks(i, off, src, n)
  }

  /** There is such a file, and it reaches to the offset. */
  predicate InFile(files: seq<seq<Byte>>, i: nat, off: nat) { i < |files| && off <= |files[i]| }

  /** The first `k` of the operations have been done. */
  ghost predicate WrittenSoFar(files: seq<seq<Byte>>, after: seq<seq<Byte>>, i: nat, off: nat, src: seq<Byte>, k: nat) {
    && InFile(files, i, off) && |after| == |files|
    && after[i] == Splice(files[i], off, src[..Min(k * MAXCHUNK, |src|)])
  }

  lemma ChunksDone(files: seq<seq<Byte>>, jobs: seq<Job>, i: nat, off: nat, src: seq<Byte>, k: nat)
    requires ChunksFor(jobs, i, off, src, k) && InFile(files, i, off)
    ensures WrittenSoFar(files, DoAll(files, jobs), i, off, src, k)
  {
    hide For, Chunks, DoAll, Splice;
    ItsJobs(files, jobs, i);
    ChunksWrite(files, i, off, src, k);
  }

  /** If the first jobs of all are done, then those of the file are some chunks, from the first one on. */
  lemma SomeChunks(all: seq<Job>, kept: seq<Job>, i: nat, off: nat, src: seq<Byte>, n: nat) returns (k: nat)
    requires ChunksFor(all, i, off, src, n) && kept <= all
    ensures k <= n && (kept == all ==> k == n) && ChunksFor(kept, i, off, src, k)
  {
    hide For, Chunks;
    ForPrefix(kept, all[|kept|..], i);
    assert kept + all[|kept|..] == all;
    k := |For(kept, i)|;
    FirstChunks(i, off, src, n, k);
    assert For(kept, i) == For(all, i)[..k] == Chunks(i, off, src, k);
  }

  // ---------------------------------------------------------------------------
  // Files on a disk

  /** The disk holds a file system that is in order in every respect, and `files` are its files. */
  ghost predicate Holds(sb: Super, v: Disk, files: seq<seq<Byte>>) {
    exists table: seq<Dinode>, owner: map<nat, Place> :: HoldsAs(sb, State(v, table, owner), files)
  }

  ghost predicate HoldsAs(sb: Super, s: State, files: seq<seq<Byte>>) {
    && StateOk(sb, s, |s.table|) && |files| == |s.table|
    && forall i :: 0 <= i < |files| ==> FileOk(s.v, s.table[i]) && files[i] == Contents(s.v, s.table[i])
  }

  /** Whatever the files are on `v`, on `v'` they are as the jobs leave them. */
  ghost predicate Does(sb: Super, v: Disk, v': Disk, jobs: seq<Job>) {
    forall files :: Holds(sb, v, files) ==> Holds(sb, v', DoAll(files, jobs))
  }

  /** The blocks as an operation leaves them, those that it has logged, and what it does to the files. */
  datatype Call = Call(after: Disk, logged: set<nat>, jobs: seq<Job>)

  /** What the file layer promises of an operation on the blocks `v`. */
  ghost predicate Promised(sb: Super, v: Disk, call: Call) {
    && AllLogged(v, {}, call.after, call.logged) && |call.logged| <= MAXOPBLOCKS
    && Does(sb, v, call.after, call.jobs)
  }

  lemma DoesThen(sb: Super, v: Disk, v1: Disk, v2: Disk, jobs: seq<Job>, more: seq<Job>)
    requires Does(sb, v, v1, jobs) && Does(sb, v1, v2, more)
    ensures Does(sb, v, v2, jobs + more)
  {
    forall files | Holds(sb, v, files)
      ensures Holds(sb, v2, DoAll(files, jobs + more))
    {
      assert Holds(sb, v1, DoAll(files, jobs));
      DoBoth(files, jobs, more);
    }
  }

  /** The files of a disk are what its inodes say. */
  lemma FilesAre(sb: Super, s: State, open: nat, files: seq<seq<Byte>>)
    requires StateOk(sb, s, open) && TableOk(sb, s.v, s.table, |s.table|) && Holds(sb, s.v, files)
    ensures HoldsAs(sb, s, files)
  {
    var table, owner :| HoldsAs(sb, State(s.v, table, owner), files);
    forall i: nat | i < |files|
      ensures table[i] == s.table[i] && FileOk(s.v, s.table[i])
    {
      assert DiskInode(sb, s.v, i) == table[i] && DiskInode(sb, s.v, i) == s.table[i];
    }
  }

  /** An operation on file `i` that leaves it with the contents `to` and all in order. */
  lemma JobDone(sb: Super, s: State, s': State, i: nat, to: seq<Byte>, job: Job)
    requires StateOk(sb, s, i) && TableOk(sb, s.v, s.table, |s.table|)
    requires StateOk(sb, s', i) && TableOk(sb, s'.v, s'.table, |s'.table|)
    requires OthersSame(s, s', i) && i < |s.table| && job.ino == i
    requires FileOk(s.v, s.table[i]) && FileOk(s'.v, s'.table[i]) && Contents(s'.v, s'.table[i]) == to
    requires match job
             case WriteAt(_, off, src) => off <= s.table[i].size && to == Splice(Contents(s.v, s.table[i]), off, src)
             case Truncate(_) => to == []
    ensures Does(sb, s.v, s'.v, [job])
  {
    hide RefsOk, BitsOk, TableOk, FirstBytes, Splice;
    forall files | Holds(sb, s.v, files)
      ensures Holds(sb, s'.v, DoAll(files, [job]))
    {
      FilesAre(sb, s, i, files);
      assert [job][..0] == [];
      assert DoAll(files, [job]) == Do(files, job);
      assert HoldsAs(sb, State(s'.v, s'.table, s'.owner), Do(files, job));
    }
  }

  lemma WriteDone(sb: Super, s: State, s': State, i: nat, off: nat, src: seq<Byte>)
    requires StateOk(sb, s, i) && TableOk(sb, s.v, s.table, |s.table|)
    requires StateOk(sb, s', i) && TableOk(sb, s'.v, s'.table, |s'.table|)
    requires OthersSame(s, s', i) && i < |s.table| && off <= s.table[i].size
    requires FileOk(s.v, s.table[i]) && FileOk(s'.v, s'.table[i])
    requires Contents(s'.v, s'.table[i]) == Splice(Contents(s.v, s.table[i]), off, src)
    ensures Does(sb, s.v, s'.v, [WriteAt(i, off, src)])
  {
    JobDone(sb, s, s', i, Contents(s'.v, s'.table[i]), WriteAt(i, off, src));
  }

  lemma TruncateDone(sb: Super, s: State, s': State, i: nat)
    requires StateOk(sb, s, i) && i < |s.table|
    requires StateOk(sb, s', i) && TableOk(sb, s'.v, s'.table, |s'.table|)
    requires OthersSame(s, s', i) && s'.table[i].size == 0
    ensures TableOk(sb, s.v, s.table, |s.table|) ==> Does(sb, s.v, s'.v, [Truncate(i)])
  {
    if TableOk(sb, s.v, s.table, |s.table|) {
      assert FileOk(s.v, s.table[i]) && FileOk(s'.v, s'.table[i]);
      JobDone(sb, s, s', i, [], Truncate(i));
    }
  }

  /** Boot, super and log blocks are no part of the file system. */
  lemma SameFiles(sb: Super, v: Disk, v': Disk, files: seq<seq<Byte>>)
    requires Holds(sb, v, files) && |v'| == |v| && forall b: nat :: sb.inodestart <= b < |v| ==> v'[b] == v[b]
    ensures Holds(sb, v', files)
  {
    var table, owner :| HoldsAs(sb, State(v, table, owner), files);
    var s, s' := State(v, table, owner), State(v', table, owner);
    Owned(sb, s);
    RefsSame(sb, v, v', table, owner);
    BitsSame(sb, v, v', owner.Keys);
    forall i: nat | i < |table|
      ensures DiskInode(sb, v', i) == table[i]
    {
      assert DiskInode(sb, v, i) == table[i];
    }
    forall i: nat | i < |table|
      ensures FileOk(v', table[i]) && Contents(v', table[i]) == Contents(v, table[i])
    {
      OtherFile(sb, v, v', table, owner, |table|, i);
    }
    assert HoldsAs(sb, s', files);
  }

  /** What an operation changes can be written block by block, no more of them than it has logged. */
  lemma {:induction false} LoggedWrites(v: Disk, v': Disk, logged: set<nat>) returns (ws: seq<Write>)
    requires AllLogged(v, {}, v', logged)
    ensures |ws| <= |logged| && forall k :: 0 <= k < |ws| ==> ws[k].blockno in logged && ws[k].blockno < |v|
    ensures Apply(v, ws) == v'
    decreases |logged|
  {
    if logged == {} {
      ws := [];
    } else {
      var a :| a in logged;
      if a >= |v| {
        ws := LoggedWrites(v, v', logged - {a});
      } else {
        var init := LoggedWrites(v, v'[a := v[a]], logged - {a});
        ws := init + [Write(a, v'[a])];
        ApplyOne(v, init, Write(a, v'[a]));
      }
    }
  }
}

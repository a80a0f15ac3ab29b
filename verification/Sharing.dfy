/**
 Address spaces shared by threads: the table of reference counts, and that a page directory is
 freed when its last user is gone and not before.

 `clone`, the swap of `exec` and the release in `wait` are taken as atomic. A zombie still counts
 as a user of its directory. Directory 0 is none.
 */
module Sharing {
  import opened Counting

  const NPROC: nat := 64

  /** An entry of `uvmrefcount`; it is not in use when the count is -1. */
  datatype Desc = Desc(pgdir: nat, refcount: int)

  predicate InUse(e: Desc) { e.refcount != -1 }

  /** How many of the first `n` processes use directory `d`. */
  function Users(procs: seq<nat>, d: nat, n: nat): (r: nat)
    requires n <= |procs|
    ensures r > 0 <==> exists i :: 0 <= i < n && procs[i] == d
  {
    if n == 0 then 0 else Users(procs, d, n - 1) + if procs[n - 1] == d then 1 else 0
  }

  /** The users of `d`, and one more if `d` is the directory that somebody is about to release. */
  function Count(procs: seq<nat>, leaving: nat, d: nat): nat {
    Users(procs, d, |procs|) + if d == leaving then 1 else 0
  }

  predicate EntryOk(uvm: seq<Desc>, procs: seq<nat>, leaving: nat, k: nat)
    requires k < |uvm|
  {
    InUse(uvm[k]) ==> uvm[k].pgdir != 0 && uvm[k].refcount == Count(procs, leaving, uvm[k].pgdir) >= 1
  }

  ghost predicate HasEntry(uvm: seq<Desc>, d: nat) {
    exists k :: 0 <= k < |uvm| && InUse(uvm[k]) && uvm[k].pgdir == d
  }

  /** Every entry counts the users of its directory, and a directory without an entry has at most one. */
  ghost predicate RefsOk(uvm: seq<Desc>, procs: seq<nat>, leaving: nat) {
    && |uvm| == NPROC == |procs|
    && (forall k :: 0 <= k < NPROC ==> EntryOk(uvm, procs, leaving, k))
    && (forall k, l :: 0 <= k < l < NPROC && InUse(uvm[k]) && InUse(uvm[l]) ==> uvm[k].pgdir != uvm[l].pgdir)
    && (forall d: nat :: d != 0 && Count(procs, leaving, d) > 1 ==> HasEntry(uvm, d))
  }

  lemma {:induction false} UsersAfter(procs: seq<nat>, j: nat, newdir: nat, d: nat, n: nat)
    requires j < |procs| && n <= |procs|
    ensures Users(procs[j := newdir], d, n) ==
            Users(procs, d, n) - (if j < n && procs[j] == d then 1 else 0) + (if j < n && newdir == d then 1 else 0)
  {
    if n > 0 {
      UsersAfter(procs, j, newdir, d, n - 1);
    }
  }

  /** Leaving: process `j` gives up its directory and takes another one, which nobody uses. */
  lemma Swapped(uvm: seq<Desc>, procs: seq<nat>, j: nat, newdir: nat)
    requires RefsOk(uvm, procs, 0) && j < NPROC && procs[j] != 0
    requires newdir == 0 || forall i :: 0 <= i < NPROC ==> procs[i] != newdir
    ensures RefsOk(uvm, procs[j := newdir], procs[j])
  {
    var procs' := procs[j := newdir];
    forall d: nat | d != 0
      ensures Count(procs', procs[j], d) == Count(procs, 0, d) + if d == newdir then 1 else 0
    {
      UsersAfter(procs, j, newdir, d, NPROC);
    }
    forall k | 0 <= k < NPROC
      ensures EntryOk(uvm, procs', procs[j], k)
    {
      assert EntryOk(uvm, procs, 0, k);
    }
  }

  /** Process `j` appears with a directory of its own. */
  lemma Appeared(uvm: seq<Desc>, procs: seq<nat>, j: nat, newdir: nat)
    requires RefsOk(uvm, procs, 0) && j < NPROC && procs[j] == 0 && newdir != 0
    requires forall i :: 0 <= i < NPROC ==> procs[i] != newdir
    ensures RefsOk(uvm, procs[j := newdir], 0)
  {
    var procs' := procs[j := newdir];
    forall d: nat | d != 0
      ensures Count(procs', 0, d) == Count(procs, 0, d) + if d == newdir then 1 else 0
    {
      UsersAfter(procs, j, newdir, d, NPROC);
    }
    forall k | 0 <= k < NPROC
      ensures EntryOk(uvm, procs', 0, k)
    {
      assert EntryOk(uvm, procs, 0, k);
    }
  }

  /** Process `j` appears as another user of directory `d0`, which has an entry, and the count goes up. */
  lemma Joined(uvm: seq<Desc>, procs: seq<nat>, j: nat, d0: nat, k0: nat, uvm': seq<Desc>)
    requires RefsOk(uvm, procs, 0) && j < NPROC && procs[j] == 0 && d0 != 0 && Count(procs, 0, d0) >= 1
    requires k0 < NPROC
    requires if InUse(uvm[k0]) then uvm[k0].pgdir == d0 && uvm' == uvm[k0 := Desc(d0, uvm[k0].refcount + 1)]
             else !HasEntry(uvm, d0) && uvm' == uvm[k0 := Desc(d0, 2)]
    ensures RefsOk(uvm', procs[j := d0], 0)
  {
    var procs' := procs[j := d0];
    forall d: nat | d != 0
      ensures Count(procs', 0, d) == Count(procs, 0, d) + if d == d0 then 1 else 0
    {
      UsersAfter(procs, j, d0, d, NPROC);
    }
    forall k | 0 <= k < NPROC
      ensures EntryOk(uvm', procs', 0, k)
    {
      assert EntryOk(uvm, procs, 0, k);
    }
    forall d: nat | d != 0 && Count(procs', 0, d) > 1
      ensures HasEntry(uvm', d)
    {
      if d == d0 {
        assert EntryOk(uvm, procs, 0, k0);
        assert InUse(uvm'[k0]) && uvm'[k0].pgdir == d;
      } else {
        var k :| 0 <= k < NPROC && InUse(uvm[k]) && uvm[k].pgdir == d;
        assert InUse(uvm'[k]) && uvm'[k].pgdir == d;
      }
    }
  }

  /** The user that was leaving is gone: the count of its directory goes down, to -1 instead of 0. */
  lemma Released(uvm: seq<Desc>, procs: seq<nat>, d0: nat, k0: nat, uvm': seq<Desc>)
    requires RefsOk(uvm, procs, d0) && d0 != 0
    requires if k0 < NPROC
             then InUse(uvm[k0]) && uvm[k0].pgdir == d0 &&
                  uvm' == uvm[k0 := Desc(d0, if uvm[k0].refcount == 1 then -1 else uvm[k0].refcount - 1)]
             else !HasEntry(uvm, d0) && uvm' == uvm
    ensures RefsOk(uvm', procs, 0)
    ensures k0 < NPROC ==> (uvm[k0].refcount == 1 <==> Users(procs, d0, NPROC) == 0)
    ensures k0 >= NPROC ==> Users(procs, d0, NPROC) == 0
  {
    forall k | 0 <= k < NPROC
      ensures EntryOk(uvm', procs, 0, k)
    {
      assert EntryOk(uvm, procs, d0, k);
    }
    assert k0 < NPROC ==> EntryOk(uvm, procs, d0, k0);
    forall d: nat | d != 0 && Count(procs, 0, d) > 1
      ensures HasEntry(uvm', d)
    {
      assert Count(procs, d0, d) > 1;
      var k :| 0 <= k < NPROC && InUse(uvm[k]) && uvm[k].pgdir == d;
      assert InUse(uvm'[k]) && uvm'[k].pgdir == d;
    }
    assert Count(procs, d0, d0) > 1 ==> HasEntry(uvm, d0);
  }

  /** A process that uses the directory of entry `k`. */
  ghost function AUser(uvm: seq<Desc>, procs: seq<nat>, k: nat): (i: nat)
    requires RefsOk(uvm, procs, 0) && k < NPROC && InUse(uvm[k])
    ensures i < NPROC && procs[i] == uvm[k].pgdir
  {
    assert EntryOk(uvm, procs, 0, k);
    var i :| 0 <= i < NPROC && procs[i] == uvm[k].pgdir;
    i
  }

  /** The table is never full when a directory needs its first entry. */
  lemma RoomLeft(uvm: seq<Desc>, procs: seq<nat>, i: nat)
    requires RefsOk(uvm, procs, 0) && i < NPROC && !HasEntry(uvm, procs[i])
    ensures exists k :: 0 <= k < NPROC && !InUse(uvm[k])
  {
    if forall k :: 0 <= k < NPROC ==> InUse(uvm[k]) {
      var users := seq(NPROC, k requires 0 <= k < NPROC => AUser(uvm, procs, k));
      AllSeen(users, NPROC, i);
    }
  }

  lemma {:induction false} NoUsers(e: nat, n: nat)
    requires n <= NPROC && e != 0
    ensures Users(seq(NPROC, _ => 0), e, n) == 0
  {
    if n > 0 {
      NoUsers(e, n - 1);
    }
  }

  /** How the users change with one process. */
  lemma UsedAfter(procs: seq<nat>, j: nat, d: nat)
    requires |procs| == NPROC && j < NPROC
    ensures forall e: nat :: Users(procs[j := d], e, NPROC) ==
              Users(procs, e, NPROC) - (if procs[j] == e then 1 else 0) + (if d == e then 1 else 0)
  {
    forall e: nat
      ensures Users(procs[j := d], e, NPROC) ==
                Users(procs, e, NPROC) - (if procs[j] == e then 1 else 0) + (if d == e then 1 else 0)
    {
      UsersAfter(procs, j, d, e, NPROC);
    }
  }

  class Kernel {
    var uvm: seq<Desc>
    /** The directory of every process, zombies included; 0 if the slot is not in use. */
    var procs: seq<nat>
    /** The directories that exist, and those that were freed, in order. */
    ghost var dirs: set<nat>
    ghost var freed: seq<nat>

    ghost predicate Valid()
      reads this
    {
      && RefsOk(uvm, procs, 0)
      && forall d: nat :: d in dirs <==> d != 0 && Users(procs, d, |procs|) > 0
    }

    /** userinit: the first process. */
    constructor (d: nat)
      requires d != 0
      ensures Valid() && dirs == {d} && freed == []
    {
      uvm := seq(NPROC, _ => Desc(0, -1));
      procs := seq(NPROC, _ => 0)[0 := d];
      dirs, freed := {d}, [];
      new;
      forall e: nat | e != 0
        ensures Count(procs, 0, e) == if e == d then 1 else 0
      {
        NoUsers(e, NPROC);
        UsersAfter(seq(NPROC, _ => 0), 0, d, e, NPROC);
      }
      assert procs[0] == d;
    }

    /** locate_uvmrefcount: NPROC if there is no entry. */
    method Locate(pgdir: nat) returns (k: nat)
      requires |uvm| == NPROC
      ensures k <= NPROC && (k < NPROC ==> InUse(uvm[k]) && uvm[k].pgdir == pgdir)
      ensures k == NPROC ==> !HasEntry(uvm, pgdir)
    {
      k := 0;
      while k < NPROC
        invariant 0 <= k <= NPROC && forall l :: 0 <= l < k ==> !(InUse(uvm[l]) && uvm[l].pgdir == pgdir)
      {
        if uvm[k].refcount != -1 && uvm[k].pgdir == pgdir {
          return;
        }
        k := k + 1;
      }
    }

    /** allocate_uvmrefcount: NPROC if the table is full. */
    method Allocate(pgdir: nat, refcount: int) returns (k: nat)
      requires |uvm| == NPROC
      modifies this`uvm
      ensures k <= NPROC && (k == NPROC <==> forall l :: 0 <= l < NPROC ==> InUse(old(uvm)[l]))
      ensures k < NPROC ==> !InUse(old(uvm)[k]) && uvm == old(uvm)[k := Desc(pgdir, refcount)]
      ensures k == NPROC ==> uvm == old(uvm)
    {
      k := 0;
      while k < NPROC
        invariant 0 <= k <= NPROC && uvm == old(uvm) && forall l :: 0 <= l < k ==> InUse(uvm[l])
      {
        if uvm[k].refcount == -1 {
          uvm := uvm[k := Desc(pgdir, refcount)];
          return;
        }
        k := k + 1;
      }
    }

    /** freevm: one user of the directory is leaving; the last one takes the directory along. */
    method FreeVm(pgdir: nat)
      requires RefsOk(uvm, procs, pgdir) && pgdir in dirs && pgdir != 0
      modifies this`uvm, this`dirs, this`freed
      ensures RefsOk(uvm, procs, 0)
      ensures if Users(procs, pgdir, NPROC) == 0 then dirs == old(dirs) - {pgdir} && freed == old(freed) + [pgdir]
              else dirs == old(dirs) && freed == old(freed)
    {
      var k := Locate(pgdir);
      ghost var uvm0 := uvm;
      if k != NPROC {
        assert EntryOk(uvm, procs, pgdir, k);
        uvm := uvm[k := uvm[k].(refcount := uvm[k].refcount - 1)];
        if uvm[k].refcount != 0 {
          Released(uvm0, procs, pgdir, k, uvm);
          return;
        } else {
          uvm := uvm[k := uvm[k].(refcount := -1)];
        }
      }
      Released(uvm0, procs, pgdir, k, uvm);
      dirs := dirs - {pgdir};
      freed := freed + [pgdir];
    }

    /** The first slot that is not in use. */
    method AllocProc() returns (j: nat)
      requires |procs| == NPROC
      ensures j <= NPROC && (j < NPROC ==> procs[j] == 0) &&
              (j == NPROC ==> forall i :: 0 <= i < NPROC ==> procs[i] != 0)
    {
      j := 0;
      while j < NPROC && procs[j] != 0
        invariant 0 <= j <= NPROC && forall i :: 0 <= i < j ==> procs[i] != 0
      {
        j := j + 1;
      }
    }

    /** fork: a new process with a directory that was just made. */
    method Fork(d: nat) returns (ok: bool)
      requires Valid() && d != 0 && d !in dirs
      modifies this`procs, this`dirs
      ensures Valid() && (ok <==> exists j :: 0 <= j < NPROC && old(procs)[j] == 0)
      ensures if ok then
                && dirs == old(dirs) + {d}
                && exists j :: 0 <= j < NPROC && old(procs)[j] == 0 && procs == old(procs)[j := d]
              else dirs == old(dirs) && procs == old(procs)
    {
      var j := AllocProc();
      if j == NPROC {
        return false;
      }
      Appeared(uvm, procs, j, d);
      procs := procs[j := d];
      dirs := dirs + {d};
      UsedAfter(old(procs), j, d);
      return true;
    }

    /** clone: another process with the directory of process `i`. The entry that it needs can always be had. */
    method Clone(i: nat) returns (ok: bool)
      requires Valid() && i < NPROC && procs[i] != 0
      modifies this`procs, this`uvm
      ensures Valid() && (ok <==> exists j :: 0 <= j < NPROC && old(procs)[j] == 0)
      ensures ok ==> exists j :: 0 <= j < NPROC && old(procs)[j] == 0 && procs == old(procs)[j := procs[i]]
    {
      var j := AllocProc();
      if j == NPROC {
        return false;
      }
      var d := procs[i];
      ghost var uvm0 := uvm;
      var k := Locate(d);
      if k != NPROC {
        uvm := uvm[k := uvm[k].(refcount := uvm[k].refcount + 1)];
      } else {
        RoomLeft(uvm, procs, i);
        k := Allocate(d, 2);
      }
      assert Users(procs, d, NPROC) > 0;
      Joined(uvm0, procs, j, d, k, uvm);
      procs := procs[j := d];
      UsedAfter(old(procs), j, d);
      return true;
    }

    /** The end of exec: process `i` swaps its directory for one that was just made. */
    method Exec(i: nat, d: nat)
      requires Valid() && i < NPROC && procs[i] != 0 && d != 0 && d !in dirs
      modifies this
      ensures Valid() && procs == old(procs)[i := d]
      ensures if Users(procs, old(procs)[i], NPROC) == 0
              then dirs == old(dirs) + {d} - {old(procs)[i]} && freed == old(freed) + [old(procs)[i]]
              else dirs == old(dirs) + {d} && freed == old(freed)
    {
      var oldpgdir := procs[i];
      Swapped(uvm, procs, i, d);
      procs := procs[i := d];
      dirs := dirs + {d};
      UsedAfter(old(procs), i, d);
      FreeVm(oldpgdir);
    }

    /** wait takes the dead process `i` out of the table. */
    method Reap(i: nat)
      requires Valid() && i < NPROC && procs[i] != 0
      modifies this
      ensures Valid() && procs == old(procs)[i := 0]
      ensures if Users(procs, old(procs)[i], NPROC) == 0
              then dirs == old(dirs) - {old(procs)[i]} && freed == old(freed) + [old(procs)[i]]
              else dirs == old(dirs) && freed == old(freed)
    {
      var pgdir := procs[i];
      Swapped(uvm, procs, i, 0);
      procs := procs[i := 0];
      UsedAfter(old(procs), i, 0);
      FreeVm(pgdir);
    }
  }
}

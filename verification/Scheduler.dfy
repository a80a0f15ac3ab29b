/**
 The scheduler: nice values, priority inheritance from the holders of locks, and one pass over the
 process table. The locks that a process holds are given.
 */
module Scheduling {
  const NPROC: nat := 64
  const MAXNICE: int := 19

  datatype Status = Unused | Embryo | Sleeping | Runnable | Running | Zombie

  datatype Proc = Proc(status: Status, chan: nat, nice: int, elevatedNice: int, locks: seq<nat>)

  ghost predicate TableOk(t: seq<Proc>) {
    |t| == NPROC && forall i :: 0 <= i < NPROC ==> t[i].nice <= MAXNICE
  }

  /** Process `q` sleeps on a lock that process `i` holds. */
  predicate WaitsFor(t: seq<Proc>, q: nat, i: nat)
    requires q < |t| && i < |t|
  {
    t[q].status == Sleeping && t[q].chan in t[i].locks
  }

  /** The nice value that counts for process `i`: the least of its own and of those who wait for it. */
  ghost predicate IsEffective(t: seq<Proc>, i: nat, e: int)
    requires i < |t|
  {
    && e <= t[i].nice && (forall q: nat :: q < |t| && WaitsFor(t, q, i) ==> e <= t[q].nice)
    && (e == t[i].nice || exists q: nat :: q < |t| && WaitsFor(t, q, i) && e == t[q].nice)
  }

  /** The elevated nice values of all runnable processes are up to date. */
  ghost predicate Elevated(t: seq<Proc>) {
    forall i: nat :: i < |t| && t[i].status == Runnable ==> IsEffective(t, i, t[i].elevatedNice)
  }

  /** Process `i` is runnable, and no runnable process has a better claim. */
  ghost predicate IsBest(t: seq<Proc>, i: nat) {
    && i < |t| && t[i].status == Runnable && Elevated(t)
    && forall j: nat :: j < |t| && t[j].status == Runnable ==> t[i].elevatedNice <= t[j].elevatedNice
  }

  /** The two tables agree on everything but the elevated nice values. */
  ghost predicate SameProcs(t: seq<Proc>, t': seq<Proc>) {
    |t'| == |t| && forall i :: 0 <= i < |t| ==> t'[i] == t[i].(elevatedNice := t'[i].elevatedNice)
  }

  /** A dispatch: the process table when process `i` gets the processor, and when it gives it back. */
  datatype Dispatch = Dispatch(table: seq<Proc>, i: nat, after: seq<Proc>)

  function Starts(t: seq<Proc>, i: nat): seq<Proc> {
    if i < |t| then t[i := t[i].(status := Running)] else t
  }

  /** The least elevated nice value of the runnable processes. */
  ghost predicate IsLeast(t: seq<Proc>, minnice: int) {
    && minnice <= MAXNICE
    && (forall i: nat :: i < |t| && t[i].status == Runnable ==> minnice <= t[i].elevatedNice)
    && (minnice == MAXNICE || exists i: nat :: i < |t| && t[i].status == Runnable && minnice == t[i].elevatedNice)
  }

  /** Each of the first `n` turns dispatches its process if that is best in the table of the turn. */
  ghost function Turns(seen: seq<seq<Proc>>, left: seq<seq<Proc>>, n: nat): seq<Dispatch>
    requires n <= |seen| && n <= |left|
  {
    if n == 0 then []
    else
      var p := n - 1;
      Turns(seen, left, p) + if IsBest(seen[p], p) then [Dispatch(Starts(seen[p], p), p, left[p])] else []
  }

  ghost predicate Ran(ds: seq<Dispatch>, i: nat) {
    exists k :: 0 <= k < |ds| && ds[k].i == i
  }

  lemma RanOn(ds: seq<Dispatch>, d: Dispatch, i: nat)
    ensures Ran(ds + [d], i) <==> Ran(ds, i) || d.i == i
  {
    if Ran(ds, i) {
      var k :| 0 <= k < |ds| && ds[k].i == i;
      assert (ds + [d])[k].i == i;
    }
    assert (ds + [d])[|ds|] == d;
  }

  /** That is each process at most once, in the order of the table, just if it is best at its turn. */
  lemma {:induction false} EachOnce(seen: seq<seq<Proc>>, left: seq<seq<Proc>>, n: nat, i: nat)
    requires n <= |seen| && n <= |left|
    ensures forall k :: 0 <= k < |Turns(seen, left, n)| ==> Turns(seen, left, n)[k].i < n
    ensures forall k, l :: 0 <= k < l < |Turns(seen, left, n)| ==> Turns(seen, left, n)[k].i < Turns(seen, left, n)[l].i
    ensures Ran(Turns(seen, left, n), i) <==> i < n && IsBest(seen[i], i)
  {
    hide IsBest, Ran;
    if n > 0 {
      EachOnce(seen, left, n - 1, i);
      var init := Turns(seen, left, n - 1);
      if IsBest(seen[n - 1], n - 1) {
        RanOn(init, Dispatch(Starts(seen[n - 1], n - 1), n - 1, left[n - 1]), i);
      } else {
        assert Turns(seen, left, n) == init;
      }
    } else {
      assert !Ran([], i) by { NoneRan(i); }
    }
  }

  lemma NoneRan(i: nat)
    ensures !Ran([], i)
  {
  }

  /**
   The table from one turn to the next: a turn without a dispatch changes nothing, and after one the
   next turn sees the table as the process `p` has left it.
   */
  ghost predicate NextTurn(seen: seq<seq<Proc>>, left: seq<seq<Proc>>, p: nat)
    requires p + 1 < |seen| && p < |left|
  {
    if IsBest(seen[p], p) then SameProcs(left[p], seen[p + 1]) else seen[p + 1] == seen[p]
  }

  /** The tables of `n` turns belong together. */
  ghost predicate TurnsOk(seen: seq<seq<Proc>>, left: seq<seq<Proc>>, n: nat) {
    && |seen| == n + 1 && |left| == n
    && (forall p :: 0 <= p <= n ==> TableOk(seen[p]) && Elevated(seen[p]))
    && (forall p: nat :: p < n ==> NextTurn(seen, left, p))
  }

  lemma TurnsSize(seen: seq<seq<Proc>>, left: seq<seq<Proc>>, n: nat)
    requires TurnsOk(seen, left, n)
    ensures |seen| == n + 1 && |left| == n
  {
  }

  lemma OneMoreTurn(seen: seq<seq<Proc>>, left: seq<seq<Proc>>, n: nat, t: seq<Proc>, back: seq<Proc>)
    requires TurnsOk(seen, left, n) && TableOk(t) && Elevated(t)
    requires if IsBest(seen[n], n) then SameProcs(back, t) else t == seen[n]
    ensures TurnsOk(seen + [t], left + [back], n + 1)
    ensures Turns(seen + [t], left + [back], n + 1) ==
              Turns(seen, left, n) + if IsBest(seen[n], n) then [Dispatch(Starts(seen[n], n), n, back)] else []
  {
    hide IsBest, SameProcs, TableOk, Elevated;
    SameTurns(seen, seen + [t], left, left + [back], n);
    forall p: nat | p < n + 1
      ensures NextTurn(seen + [t], left + [back], p)
    {
      assert p < n ==> NextTurn(seen, left, p);
    }
  }

  lemma {:induction false} SameTurns(seen: seq<seq<Proc>>, seen': seq<seq<Proc>>, left: seq<seq<Proc>>,
                                     left': seq<seq<Proc>>, n: nat)
    requires n <= |seen| <= |seen'| && seen'[..|seen|] == seen && n <= |left| <= |left'| && left'[..|left|] == left
    ensures Turns(seen', left', n) == Turns(seen, left, n)
  {
    if n > 0 {
      SameTurns(seen, seen', left, left', n - 1);
      assert seen'[n - 1] == seen'[..|seen|][n - 1] && left'[n - 1] == left'[..|left|][n - 1];
    }
  }

  /** The test of scheduler picks the best processes and no others. */
  lemma BestWhen(t: seq<Proc>, p: nat, minnice: int)
    requires TableOk(t) && p < NPROC && Elevated(t) && IsLeast(t, minnice)
    ensures IsBest(t, p) <==> t[p].status == Runnable && t[p].elevatedNice <= minnice
  {
    hide IsEffective;
    assert t[p].status == Runnable ==> IsEffective(t, p, t[p].elevatedNice) && t[p].elevatedNice <= MAXNICE by {
      Bounded(t, p, t[p].elevatedNice);
    }
  }

  lemma Bounded(t: seq<Proc>, p: nat, e: int)
    requires TableOk(t) && p < NPROC
    ensures IsEffective(t, p, e) ==> e <= MAXNICE
  {
  }

  /** The elevated values themselves have no influence on what they should be. */
  lemma EffectiveSame(t: seq<Proc>, t': seq<Proc>, i: nat, e: int)
    requires SameProcs(t, t') && i < |t|
    ensures IsEffective(t, i, e) <==> IsEffective(t', i, e)
  {
    forall q: nat | q < |t|
      ensures WaitsFor(t', q, i) <==> WaitsFor(t, q, i)
      ensures t'[q].nice == t[q].nice
    {
    }
  }

  lemma OneEffective(t: seq<Proc>, i: nat, e: int, e2: int)
    requires i < |t| && IsEffective(t, i, e) && IsEffective(t, i, e2)
    ensures e == e2
  {
  }

  class Cpu {
    var table: seq<Proc>
    /** All dispatches so far; only `Switch` adds to them. */
    ghost var ran: seq<Dispatch>

    ghost predicate Valid()
      reads this
    {
      TableOk(table)
    }

    constructor (table: seq<Proc>)
      requires TableOk(table)
      ensures Valid() && this.table == table && ran == []
    {
      this.table, ran := table, [];
    }

    /** The two inner loops of findminnice, for one runnable process. */
    method Elevate(i: nat)
      requires Valid() && i < NPROC
      modifies this`table
      ensures Valid() && table == old(table)[i := old(table)[i].(elevatedNice := table[i].elevatedNice)]
      ensures IsEffective(old(table), i, table[i].elevatedNice)
    {
      ghost var t := table;
      var e := table[i].nice;
      var k := 0;
      while k < |table[i].locks|
        invariant 0 <= k <= |t[i].locks| && table == t && e <= t[i].nice
        invariant forall q: nat :: q < NPROC && t[q].status == Sleeping && t[q].chan in t[i].locks[..k] ==>
                    e <= t[q].nice
        invariant e == t[i].nice || exists q: nat :: q < NPROC && WaitsFor(t, q, i) && e == t[q].nice
      {
        var lock := table[i].locks[k];
        var q := 0;
        while q < NPROC
          invariant 0 <= q <= NPROC && table == t && e <= t[i].nice
          invariant forall r: nat :: r < NPROC && t[r].status == Sleeping && t[r].chan in t[i].locks[..k] ==>
                      e <= t[r].nice
          invariant forall r: nat :: r < q && t[r].status == Sleeping && t[r].chan == lock ==> e <= t[r].nice
          invariant e == t[i].nice || exists r: nat :: r < NPROC && WaitsFor(t, r, i) && e == t[r].nice
        {
          if table[q].status == Sleeping && table[q].chan == lock && table[q].nice < e {
            e := table[q].nice;
            assert WaitsFor(t, q, i);
          }
          q := q + 1;
        }
        assert t[i].locks[..k + 1] == t[i].locks[..k] + [lock];
        k := k + 1;
      }
      assert t[i].locks[..k] == t[i].locks;
      table := table[i := table[i].(elevatedNice := e)];
    }

    /** findminnice. */
    method FindMinNice() returns (minnice: int)
      requires Valid()
      modifies this`table
      ensures Valid() && SameProcs(old(table), table) && Elevated(table)
      ensures IsLeast(table, minnice)
      ensures Elevated(old(table)) ==> table == old(table)
    {
      ghost var t := table;
      minnice := MAXNICE;
      var i := 0;
      while i < NPROC
        invariant 0 <= i <= NPROC && Valid() && SameProcs(t, table) && minnice <= MAXNICE
        invariant forall j: nat :: j < i && table[j].status == Runnable ==> IsEffective(t, j, table[j].elevatedNice)
        invariant forall j: nat :: j < i && table[j].status == Runnable ==> minnice <= table[j].elevatedNice
        invariant minnice == MAXNICE ||
                  exists j: nat :: j < i && table[j].status == Runnable && minnice == table[j].elevatedNice
        invariant Elevated(t) ==> table == t
      {
        if table[i].status == Runnable {
          ghost var t1 := table;
          Elevate(i);
          EffectiveSame(t1, t, i, table[i].elevatedNice);
          if table[i].elevatedNice < minnice {
            minnice := table[i].elevatedNice;
          }
          if Elevated(t) {
            OneEffective(t, i, table[i].elevatedNice, t[i].elevatedNice);
          }
        }
        i := i + 1;
      }
      forall j: nat | j < NPROC && table[j].status == Runnable
        ensures IsEffective(table, j, table[j].elevatedNice)
      {
        EffectiveSame(t, table, j, table[j].elevatedNice);
      }
    }

    /**
     swtch: process `i` runs until it comes back to the scheduler. It may have changed the table in any
     way that keeps nice values in their range. If it is `quiet`, it is runnable again and has changed nothing.
     */
    method Switch(i: nat, quiet: bool)
      requires Valid() && i < NPROC && table[i].status == Running
      modifies this
      ensures Valid() && (quiet ==> table == old(table)[i := old(table)[i].(status := Runnable)])
      ensures ran == old(ran) + [Dispatch(old(table), i, table)]
    {
      ghost var t0 := table;
      if quiet {
        table := table[i := table[i].(status := Runnable)];
      } else {
        var t: seq<Proc> := *;
        if |t| == NPROC && forall k :: 0 <= k < NPROC ==> t[k].nice <= MAXNICE {
          table := t;
        }
      }
      ran := ran + [Dispatch(t0, i, table)];
    }

    /** The body of the loop of scheduler. */
    method Turn(p: nat, minnice0: int, quiet: bool) returns (minnice: int, ghost back: seq<Proc>)
      requires Valid() && p < NPROC && Elevated(table) && IsLeast(table, minnice0)
      modifies this
      ensures Valid() && Elevated(table) && IsLeast(table, minnice)
      ensures if IsBest(old(table), p) then SameProcs(back, table) else table == old(table)
      ensures ran == old(ran) + if IsBest(old(table), p) then [Dispatch(Starts(old(table), p), p, back)] else []
      ensures quiet ==> table == old(table)
    {
      hide IsBest, SameProcs;
      BestWhen(table, p, minnice0);
      if table[p].status != Runnable || table[p].elevatedNice > minnice0 {
        return minnice0, table;
      }
      ghost var t := table;
      table := table[p := table[p].(status := Running)];
      Switch(p, quiet);
      back := table;
      assert quiet ==> back == t;
      minnice := FindMinNice();
    }

    /**
     One pass of the loop of scheduler, and what it dispatches. `seen[p]` is the table at turn `p`,
     with the elevated nice values up to date, and `left[p]` the one that process `p` has left if it was
     dispatched. If the processes come back runnable and unchanged, all turns see the same table.
     */
    method Pass(quiet: bool) returns (ghost seen: seq<seq<Proc>>, ghost left: seq<seq<Proc>>)
      requires Valid()
      modifies this
      ensures Valid() && TurnsOk(seen, left, NPROC) && ran == old(ran) + Turns(seen, left, NPROC)
      ensures SameProcs(old(table), seen[0]) && table == seen[NPROC]
      ensures quiet ==> forall p :: 0 <= p <= NPROC ==> seen[p] == table
    {
      hide IsBest, Elevated, SameProcs, TableOk, IsLeast, NextTurn;
      var minnice := FindMinNice();
      ghost var t := table;
      seen, left := [table], [];
      var p := 0;
      while p < NPROC
        invariant 0 <= p <= NPROC && TableOk(table) && Elevated(table) && IsLeast(table, minnice)
        invariant TurnsOk(seen, left, p) && seen[p] == table && ran == old(ran) + Turns(seen, left, p)
        invariant SameProcs(old(table), seen[0])
        invariant quiet ==> forall k :: 0 <= k <= p ==> seen[k] == t
      {
        hide TurnsOk, Turns;
        TurnsSize(seen, left, p);
        ghost var back;
        minnice, back := Turn(p, minnice, quiet);
        OneMoreTurn(seen, left, p, table, back);
        seen, left := seen + [table], left + [back];
        TurnsSize(seen, left, p + 1);
        p := p + 1;
      }
    }
  }
}

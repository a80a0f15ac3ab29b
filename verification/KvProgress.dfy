/**
 Nobody waits in the hash table without a reason: a bucket is locked just while some thread is inside
 the locked part of a `put` into it, and every operation but a `put` that finds its bucket locked
 comes to its return by itself.
 */
module KvProgress {
  import opened Wrappers
  import opened Linearizability
  import opened KvStore
  import opened KvLinearizable

  // ---------------------------------------------------------------------------
  // Who holds the locks

  /** The thread is between the lock and the unlock of a `put` into bucket `b`. */
  predicate InsidePut(l: Local, b: nat, size: nat)
    requires size > 0
  {
    && (l.PutHead? || l.PutCheck? || l.PutStore? || l.PutNext? || l.PutMiss? || l.PutPublish? || l.PutUnlock?)
    && Bucket(l.k, size) == b
  }

  ghost predicate LockOk(s: Table, b: nat)
    requires b < |s.locks| == |s.heads|
  {
    match s.locks[b]
    case None => true
    case Some(t) => t < |s.threads| && InsidePut(s.threads[t], b, |s.heads|)
  }

  ghost predicate LocksOk(s: Table)
    requires |s.locks| == |s.heads|
  {
    forall b :: 0 <= b < |s.heads| ==> LockOk(s, b)
  }

  lemma LocksStep(s: Table, c: Choice)
    requires Shape(s) && LocksOk(s) && Step(s, c).Some?
    ensures LocksOk(Step(s, c).value.0)
  {
    forall b | 0 <= b < |s.heads|
      ensures LockOk(Step(s, c).value.0, b)
    {
      assert LockOk(s, b);
    }
  }

  lemma {:induction false} LocksReachable(size: nat, n: nat, schedule: seq<Choice>)
    requires size > 0
    ensures LocksOk(Execute(size, n, schedule).0)
  {
    if schedule != [] {
      var s, c := Execute(size, n, schedule[..|schedule| - 1]).0, schedule[|schedule| - 1];
      LocksReachable(size, n, schedule[..|schedule| - 1]);
      hide Step, LocksOk;
      if Step(s, c).Some? {
        LocksStep(s, c);
      }
    }
  }

  /** In every reachable state a bucket is locked by a thread if and only if that thread is inside a `put` into it. */
  lemma LockedInside(size: nat, n: nat, schedule: seq<Choice>, b: nat, t: nat)
    requires b < size
    ensures var s := Execute(size, n, schedule).0;
            s.locks[b] == Some(t) <==> t < n && InsidePut(s.threads[t], b, size)
  {
    LocksReachable(size, n, schedule);
    Simulation(size, n, schedule);
    var s := Execute(size, n, schedule).0;
    assert LockOk(s, b);
    assert t < n ==> LocalInv(s, t);
  }

  // ---------------------------------------------------------------------------
  // How far a thread is from its return

  function Rank(p: Pointer): nat {
    match p
    case None => 0
    case Some(i) => i + 1
  }

  /** A bound on the steps that a thread has before it, with `nodes` nodes in the heap. */
  function Left(l: Local, nodes: nat): nat {
    match l
    case Outside => 0
    case PutLock(_, _) => 7 + 2 * nodes
    case PutHead(_, _) => 6 + 2 * nodes
    case PutCheck(_, _, node) => 5 + 2 * Rank(node)
    case PutNext(_, _, at) => 6 + 2 * at
    case PutMiss(_, _) => 4
    case PutStore(_, _, _) => 3
    case PutPublish(_, _, _) => 3
    case PutUnlock(_) => 2
    case PutReturn => 1
    case GetHead(_) => 6 + 2 * nodes
    case GetCheck(_, node) => 5 + 2 * Rank(node)
    case GetNext(_, at) => 6 + 2 * at
    case GetLoad(_, _) => 2
    case GetReturn(_) => 1
  }

  /** The thread is in an operation, and not before a locked bucket. */
  ghost predicate CanGo(s: Table, t: nat)
    requires Shape(s) && t < |s.threads|
  {
    match s.threads[t]
    case Outside => false
    case PutLock(k, _) => s.locks[Bucket(k, |s.heads|)].None?
    case _ => true
  }

  /** The state after `n` steps of thread `t` alone, and what it has shown; None if it has to wait. */
  ghost function Advances(s: Table, t: nat, n: nat): (r: Option<(Table, seq<Event<Op, Result>>)>)
    requires Shape(s)
    ensures r.Some? ==> Shape(r.value.0)
    decreases n
  {
    if n == 0 then Some((s, []))
    else
      match Step(s, Advance(t))
      case None => None
      case Some((s1, es)) =>
        match Advances(s1, t, n - 1)
        case None => None
        case Some((s2, more)) => Some((s2, es + more))
  }

  /** What the operation of thread `t` does to the map, and what it returns. */
  ghost predicate Finishes(s: Table, t: nat, s': Table, es: seq<Event<Op, Result>>)
    requires Shape(s) && Shape(s') && t < |s.threads|
  {
    && s'.threads == s.threads[t := Outside] && |es| == 1 && es[0].Return? && es[0].tid == t
    && match StatusOf(s, t)
       case Idle => false
       case Pending(op) => Apply(Contents(s), op) == Some((Contents(s'), es[0].res))
       case Applied(res) => Contents(s') == Contents(s) && es[0].res == res
  }

  /** One step brings the thread nearer to its return. */
  lemma Nearer(s: Table, t: nat)
    requires Shape(s) && t < |s.threads| && CanGo(s, t)
    ensures Step(s, Advance(t)).Some?
    ensures var (s1, es) := Step(s, Advance(t)).value;
            && Left(s1.threads[t], |s1.heap|) < Left(s.threads[t], |s.heap|)
            && s1.threads == s.threads[t := s1.threads[t]]
            && (s.threads[t].PutPublish? || |s1.heap| == |s.heap|)
            && (es == [] <==> !s1.threads[t].Outside?)
            && (es == [] ==> CanGo(s1, t))
            && (es != [] ==> |es| == 1 && es[0].Return? && es[0].tid == t)
  {
    assert LocalShape(s.threads[t], |s.heap|);
  }

  /** ... and does what it has to do to the map. */
  lemma Sooner(s: Table, t: nat)
    requires Inv(s) && t < |s.threads| && CanGo(s, t) && Step(s, Advance(t)).Some?
    ensures var (s1, es) := Step(s, Advance(t)).value;
            && Inv(s1)
            && if es != [] then StatusOf(s, t) == Applied(es[0].res) && Contents(s1) == Contents(s)
               else if ActsOf(s, Advance(t)) == [] then
                 StatusOf(s1, t) == StatusOf(s, t) && Contents(s1) == Contents(s)
               else
                 StatusOf(s, t).Pending? && StatusOf(s1, t).Applied? &&
                 Apply(Contents(s), StatusOf(s, t).op) == Some((Contents(s1), StatusOf(s1, t).res))
  {
    InvStep(s, Advance(t));
    ContentsAfter(s, Advance(t));
    if ActsOf(s, Advance(t)) == [] {
      QuietMove(s, t);
    } else {
      LoudMove(s, t);
    }
  }

  /** A thread that can go comes to its return by itself. */
  lemma {:induction false} RunsAlone(s: Table, t: nat) returns (n: nat)
    requires Inv(s) && t < |s.threads| && CanGo(s, t)
    ensures n <= Left(s.threads[t], |s.heap|) && Advances(s, t, n).Some?
    ensures var (s', es) := Advances(s, t, n).value; Inv(s') && Finishes(s, t, s', es)
    decreases Left(s.threads[t], |s.heap|)
  {
    Nearer(s, t);
    Sooner(s, t);
    hide Step, Inv, CanGo, ActsOf, Contents, StatusOf, Left;
    var (s1, es) := Step(s, Advance(t)).value;
    if es != [] {
      n := 1;
      assert Advances(s1, t, 0) == Some((s1, []));
      assert es + [] == es;
    } else {
      n := RunsAlone(s1, t);
      var (s2, more) := Advances(s1, t, n).value;
      assert es + more == more;
      n := n + 1;
    }
  }

  /** No thread is inside the locked part of a `put` into bucket `b`. */
  ghost predicate NobodyIn(s: Table, b: nat)
    requires |s.heads| > 0
  {
    forall u :: 0 <= u < |s.threads| ==> !InsidePut(s.threads[u], b, |s.heads|)
  }

  lemma NotLocked(s: Table, t: nat)
    requires Shape(s) && LocksOk(s) && t < |s.threads| && !s.threads[t].Outside?
    requires s.threads[t].PutLock? ==> NobodyIn(s, Bucket(s.threads[t].k, |s.heads|))
    ensures CanGo(s, t)
  {
    assert s.threads[t].PutLock? ==> LockOk(s, Bucket(s.threads[t].k, |s.heads|));
  }

  /**
   In every reachable state a thread inside `get`, and a thread inside `put` unless another one is inside
   the locked part of a `put` into the same bucket, comes to its return alone.
   */
  lemma ReturnsAlone(size: nat, n: nat, schedule: seq<Choice>, t: nat) returns (steps: nat)
    requires size > 0 && t < n
    requires var s := Execute(size, n, schedule).0;
             && !s.threads[t].Outside?
             && (s.threads[t].PutLock? ==> NobodyIn(s, Bucket(s.threads[t].k, size)))
    ensures var s := Execute(size, n, schedule).0;
            && Advances(s, t, steps).Some?
            && Finishes(s, t, Advances(s, t, steps).value.0, Advances(s, t, steps).value.1)
  {
    Simulation(size, n, schedule);
    LocksReachable(size, n, schedule);
    var s := Execute(size, n, schedule).0;
    hide Execute, Finishes, Inv, Advances, Shape, CanGo, NobodyIn;
    NotLocked(s, t);
    steps := RunsAlone(s, t);
  }

  /** If somebody is in the table, then somebody can go. */
  lemma SomebodyCan(s: Table, t: nat) returns (u: nat)
    requires Shape(s) && LocksOk(s) && t < |s.threads| && !s.threads[t].Outside?
    ensures u < |s.threads| && CanGo(s, u)
  {
    u := t;
    if !CanGo(s, t) {
      var b := Bucket(s.threads[t].k, |s.heads|);
      assert LockOk(s, b);
      u := s.locks[b].value;
    }
  }
}

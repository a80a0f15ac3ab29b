/**
 Nobody waits in the ring without a reason: an operation that has passed its semaphore can always be
 brought to its return, and a waiting one as soon as the queue lets it.
 */
module RingProgress {
  import opened Wrappers
  import opened Linearizability
  import opened Ring
  import opened RingLinearizable

  /** The mutexes are held by threads. */
  ghost predicate HoldersOk(s: State) {
    && (s.sMutex.Some? ==> s.sMutex.value < |s.threads|)
    && (s.gMutex.Some? ==> s.gMutex.value < |s.threads|)
  }

  lemma HoldersStep(s: State, c: Choice)
    requires Shape(s) && HoldersOk(s) && Step(s, c).Some?
    ensures HoldersOk(Step(s, c).value.0)
  {
  }

  /** In every run of the ring. */
  lemma {:induction false} HoldersReachable(n: nat, schedule: seq<Choice>)
    ensures HoldersOk(Execute(n, schedule).0)
  {
    if schedule != [] {
      var s, c := Execute(n, schedule[..|schedule| - 1]).0, schedule[|schedule| - 1];
      HoldersReachable(n, schedule[..|schedule| - 1]);
      hide Step;
      if Step(s, c).Some? {
        HoldersStep(s, c);
      }
    }
  }

  /** The thread uses neither a semaphore nor a mutex: it is outside, or waits at the first semaphore. */
  predicate Resting(l: Local) {
    l.Outside? || l.SubmitWait? || l.TakeWait?
  }

  /** How many steps it has before it. */
  function Left(l: Local): nat {
    match l
    case Outside => 0
    case SubmitWait(_) => 7
    case SubmitLock(_) => 6
    case SubmitStore(_) => 5
    case SubmitAdvance(_) => 4
    case SubmitUnlock => 3
    case SubmitPost => 2
    case SubmitReturn => 1
    case TakeWait => 7
    case TakeLock => 6
    case TakeLoad => 5
    case TakeAdvance(_) => 4
    case TakeUnlock(_) => 3
    case TakePost(_) => 2
    case TakeReturn(_) => 1
  }

  /** The thread finds what it will wait for. */
  ghost predicate CanGo(s: State, t: nat)
    requires t < |s.threads|
  {
    match s.threads[t]
    case Outside => false
    case SubmitWait(_) => s.notFull > 0 && s.sMutex.None?
    case SubmitLock(_) => s.sMutex.None?
    case TakeWait => s.notEmpty > 0 && s.gMutex.None?
    case TakeLock => s.gMutex.None?
    case _ => true
  }

  /** The state after `n` steps of thread `t` alone, and what it has shown; None if it has to wait. */
  ghost function Advances(s: State, t: nat, n: nat): Option<(State, seq<Event<Op, Result>>)>
    requires Shape(s)
    decreases n
  {
    if n == 0 then Some((s, []))
    else
      match Step(s, Advance(t))
      case None => None
      case Some((s1, es)) =>
        match Advances(s1, t, n - 1)
        case None => None
        case Some((s2, more)) => Some((s2, es + more))
  }

  /** What the operation of thread `t` does to the queue, and what it returns. */
  ghost predicate Finishes(s: State, t: nat, s': State, es: seq<Event<Op, Result>>)
    requires t < |s.threads| && |s.gots| <= |s.subs| && |s'.gots| <= |s'.subs|
  {
    && s'.threads == s.threads[t := Outside] && |es| == 1 && es[0].Return? && es[0].tid == t
    && match StatusOf(s.threads[t])
       case Idle => false
       case Pending(op) => Apply(Queue(s), op) == Some((Queue(s'), es[0].res))
       case Applied(res) => Queue(s') == Queue(s) && es[0].res == res
  }

  lemma OneStep(s: State, t: nat)
    requires Inv(s) && t < |s.threads| && CanGo(s, t)
    ensures Step(s, Advance(t)).Some?
    ensures var (s1, es) := Step(s, Advance(t)).value;
            && Inv(s1) && Left(s1.threads[t]) == Left(s.threads[t]) - 1
            && s1.threads == s.threads[t := s1.threads[t]]
            && (if s1.threads[t].Outside? then Finishes(s, t, s1, es)
                else
                  es == [] && CanGo(s1, t) &&
                  match StatusOf(s.threads[t])
                  case Idle => false
                  case Pending(op) =>
                    (match StatusOf(s1.threads[t])
                     case Pending(op') => op' == op && Queue(s1) == Queue(s)
                     case Applied(res) => Apply(Queue(s), op) == Some((Queue(s1), res))
                     case Idle => false)
                  case Applied(res) => StatusOf(s1.threads[t]) == Applied(res) && Queue(s1) == Queue(s))
  {
    InvStep(s, Advance(t));
    QueueStep(s, Advance(t));
    assert LocalInv(s, t);
  }

  /** Then it comes to its return by itself. */
  lemma {:induction false} RunsAlone(s: State, t: nat)
    requires Inv(s) && t < |s.threads| && CanGo(s, t)
    ensures Advances(s, t, Left(s.threads[t])).Some?
    ensures var (s', es) := Advances(s, t, Left(s.threads[t])).value; Inv(s') && Finishes(s, t, s', es)
    decreases Left(s.threads[t])
  {
    OneStep(s, t);
    hide Step, Inv, CanGo;
    var (s1, es) := Step(s, Advance(t)).value;
    if s1.threads[t].Outside? {
      assert Advances(s1, t, 0) == Some((s1, []));
      assert es + [] == es;
    } else {
      RunsAlone(s1, t);
      var (s2, more) := Advances(s1, t, Left(s1.threads[t])).value;
      assert es + more == more;
    }
  }

  lemma {:induction false} AllNeutral(threads: seq<Local>, p: Phase)
    requires p != Neutral && forall u :: 0 <= u < |threads| ==> Resting(threads[u])
    ensures Count(threads, p) == 0
  {
    if threads != [] {
      AllNeutral(threads[1..], p);
    }
  }

  /** When all threads rest, the semaphores count the queue and the mutexes are free. */
  lemma AllRest(s: State)
    requires Inv(s) && HoldersOk(s) && forall u :: 0 <= u < |s.threads| ==> Resting(s.threads[u])
    ensures s.notEmpty == |Queue(s)| && s.notFull == RING_SIZE - |Queue(s)| && s.sMutex.None? && s.gMutex.None?
  {
    AllNeutral(s.threads, Stored);
    AllNeutral(s.threads, Storing);
    AllNeutral(s.threads, Loading);
    AllNeutral(s.threads, Loaded);
    assert s.sMutex.Some? ==> LocalInv(s, s.sMutex.value);
    assert s.gMutex.Some? ==> LocalInv(s, s.gMutex.value);
  }

  /** If somebody has work in the ring to finish, then somebody can finish it now. */
  lemma SomebodyCan(s: State, t: nat) returns (u: nat)
    requires Inv(s) && HoldersOk(s) && t < |s.threads| && !Resting(s.threads[t])
    ensures u < |s.threads| && !Resting(s.threads[u]) && CanGo(s, u)
  {
    u := t;
    if s.threads[t].SubmitLock? && s.sMutex.Some? {
      u := s.sMutex.value;
      assert LocalInv(s, u);
    } else if s.threads[t].TakeLock? && s.gMutex.Some? {
      u := s.gMutex.value;
      assert LocalInv(s, u);
    }
  }

  /**
   In every reachable state: if no other thread is inside an operation, one that is in ring_get, with
   something in the queue, or in ring_submit, with room in it, comes to its return alone.
   */
  lemma ReturnsAlone(n: nat, schedule: seq<Choice>, t: nat)
    requires var s := Execute(n, schedule).0;
             && t < n && !s.threads[t].Outside?
             && (forall u :: 0 <= u < n && u != t ==> s.threads[u].Outside?)
             && (s.threads[t].TakeWait? ==> |s.gots| < |s.subs|)
             && (s.threads[t].SubmitWait? ==> |s.subs| < |s.gots| + RING_SIZE)
    ensures var s := Execute(n, schedule).0;
            && Inv(s) && Advances(s, t, Left(s.threads[t])).Some?
            && var (s', es) := Advances(s, t, Left(s.threads[t])).value; Inv(s') && Finishes(s, t, s', es)
  {
    Simulation(n, schedule);
    HoldersReachable(n, schedule);
    var s := Execute(n, schedule).0;
    hide Execute;
    if Resting(s.threads[t]) {
      AllRest(s);
    } else {
      var u := SomebodyCan(s, t);
    }
    hide Inv, Finishes, Advances;
    RunsAlone(s, t);
  }
}

/**
 The shared-memory ring between clients and server: two counting semaphores, one mutex per end.

 A run is any schedule of single steps of any number of threads, each thread submitting or getting.
 `subs` and `gots` are history variables: every descriptor stored into the ring, and every one
 taken out, in the order of the two mutexes. No step reads them.
 */
module Ring {
  import opened Wrappers
  import opened Linearizability

  const RING_SIZE: nat := 1024

  datatype RequestType = PUT | GET

  datatype Descriptor = Descriptor(reqType: RequestType, k: Uint32, v: Uint32, resOff: nat, ready: bool)

  /** What memory holds after it was cleared to zero bytes. */
  const ZERO := Descriptor(PUT, 0, 0, 0, false)

  datatype Op = Submit(bd: Descriptor) | Take

  datatype Result = Submitted | Took(bd: Descriptor)

  /** The program counter and the local descriptor of a thread. */
  datatype Local =
    | Outside
    | SubmitWait(bd: Descriptor)
    | SubmitLock(bd: Descriptor)
    | SubmitStore(bd: Descriptor)
    | SubmitAdvance(bd: Descriptor)
    | SubmitUnlock
    | SubmitPost
    | SubmitReturn
    | TakeWait
    | TakeLock
    | TakeLoad
    | TakeAdvance(bd: Descriptor)
    | TakeUnlock(bd: Descriptor)
    | TakePost(bd: Descriptor)
    | TakeReturn(bd: Descriptor)

  datatype State = State(
    buffer: seq<Descriptor>,
    pHead: nat,
    cTail: nat,
    notFull: nat,
    notEmpty: nat,
    sMutex: Option<nat>,
    gMutex: Option<nat>,
    threads: seq<Local>,
    subs: seq<Descriptor>,
    gots: seq<Descriptor>)

  datatype Choice = Start(tid: nat, op: Op) | Advance(tid: nat)

  function InitRing(n: nat): State {
    State(seq(RING_SIZE, _ => ZERO), 0, 0, RING_SIZE, 0, None, None, seq(n, _ => Outside), [], [])
  }

  predicate Shape(s: State) {
    |s.buffer| == RING_SIZE && s.pHead < RING_SIZE && s.cTail < RING_SIZE
  }

  function Move(s: State, t: nat, l: Local): State
    requires t < |s.threads|
  {
    s.(threads := s.threads[t := l])
  }

  /** One step; None: the thread has to wait, or the choice makes no sense. */
  function Step(s: State, c: Choice): (r: Option<(State, seq<Event<Op, Result>>)>)
    requires Shape(s)
    ensures r.Some? ==> Shape(r.value.0) && |r.value.0.threads| == |s.threads|
  {
    if c.tid >= |s.threads| then None
    else
      match c
      case Start(t, op) =>
        if s.threads[t] != Outside then None
        else Some((Move(s, t, if op.Submit? then SubmitWait(op.bd) else TakeWait), [Call(t, op)]))
      case Advance(t) =>
        match s.threads[t]
        case Outside => None
        case SubmitWait(bd) =>
          if s.notFull == 0 then None
          else Some((Move(s, t, SubmitLock(bd)).(notFull := s.notFull - 1), []))
        case SubmitLock(bd) =>
          if s.sMutex.Some? then None
          else Some((Move(s, t, SubmitStore(bd)).(sMutex := Some(t)), []))
        case SubmitStore(bd) =>
          Some((Move(s, t, SubmitAdvance(bd)).(buffer := s.buffer[s.pHead := bd]), []))
        case SubmitAdvance(bd) =>
          Some((Move(s, t, SubmitUnlock).(pHead := (s.pHead + 1) % RING_SIZE, subs := s.subs + [bd]), []))
        case SubmitUnlock => Some((Move(s, t, SubmitPost).(sMutex := None), []))
        case SubmitPost => Some((Move(s, t, SubmitReturn).(notEmpty := s.notEmpty + 1), []))
        case SubmitReturn => Some((Move(s, t, Outside), [Return(t, Submitted)]))
        case TakeWait =>
          if s.notEmpty == 0 then None
          else Some((Move(s, t, TakeLock).(notEmpty := s.notEmpty - 1), []))
        case TakeLock =>
          if s.gMutex.Some? then None
          else Some((Move(s, t, TakeLoad).(gMutex := Some(t)), []))
        case TakeLoad => Some((Move(s, t, TakeAdvance(s.buffer[s.cTail])), []))
        case TakeAdvance(bd) =>
          Some((Move(s, t, TakeUnlock(bd)).(cTail := (s.cTail + 1) % RING_SIZE, gots := s.gots + [bd]), []))
        case TakeUnlock(bd) => Some((Move(s, t, TakePost(bd)).(gMutex := None), []))
        case TakePost(bd) => Some((Move(s, t, TakeReturn(bd)).(notFull := s.notFull + 1), []))
        case TakeReturn(bd) => Some((Move(s, t, Outside), [Return(t, Took(bd))]))
  }

  /** The state and the history after a schedule; a choice that cannot move is skipped. */
  ghost function Execute(n: nat, schedule: seq<Choice>): (r: (State, seq<Event<Op, Result>>))
    ensures Shape(r.0) && |r.0.threads| == n
  {
    if schedule == [] then (InitRing(n), [])
    else
      var (s, h) := Execute(n, schedule[..|schedule| - 1]);
      match Step(s, schedule[|schedule| - 1])
      case None => (s, h)
      case Some((s', es)) => (s', h + es)
  }
}

/** The ring is a linearizable bounded FIFO queue without races on its slots. */
module RingLinearizable {
  import opened Wrappers
  import opened Linearizability
  import opened Ring

  /** The sequential object: a queue of at most RING_SIZE descriptors; operations wait, they never fail. */
  function Apply(q: seq<Descriptor>, op: Op): Option<(seq<Descriptor>, Result)> {
    match op
    case Submit(bd) => if |q| < RING_SIZE then Some((q + [bd], Submitted)) else None
    case Take => if q == [] then None else Some((q[1..], Took(q[0])))
  }

  const QueueObject: Object<seq<Descriptor>, Op, Result> := Object([], Apply)

  // ---------------------------------------------------------------------------
  // Counting threads

  /** Where a thread is, as the semaphores see it. */
  datatype Phase = Neutral | Storing | Stored | Loading | Loaded

  function PhaseOf(l: Local): Phase {
    match l
    case SubmitLock(_) => Storing
    case SubmitStore(_) => Storing
    case SubmitAdvance(_) => Storing
    case SubmitUnlock => Stored
    case SubmitPost => Stored
    case TakeLock => Loading
    case TakeLoad => Loading
    case TakeAdvance(_) => Loading
    case TakeUnlock(_) => Loaded
    case TakePost(_) => Loaded
    case _ => Neutral
  }

  function Count(threads: seq<Local>, p: Phase): nat {
    if threads == [] then 0
    else (if PhaseOf(threads[0]) == p then 1 else 0) + Count(threads[1..], p)
  }

  lemma {:induction false} CountUpdate(threads: seq<Local>, t: nat, l: Local, p: Phase)
    requires t < |threads|
    ensures Count(threads[t := l], p) + (if PhaseOf(threads[t]) == p then 1 else 0) ==
            Count(threads, p) + (if PhaseOf(l) == p then 1 else 0)
  {
    if t > 0 {
      CountUpdate(threads[1..], t - 1, l, p);
      assert threads[t := l][1..] == threads[1..][t - 1 := l];
    } else {
      assert threads[t := l][1..] == threads[1..];
    }
  }

  lemma {:induction false} CountPositive(threads: seq<Local>, t: nat)
    requires t < |threads|
    ensures Count(threads, PhaseOf(threads[t])) > 0
  {
    if t > 0 {
      CountPositive(threads[1..], t - 1);
    }
  }

  lemma {:induction false} CountOutside(n: nat, p: Phase)
    requires p != Neutral
    ensures Count(seq(n, _ => Outside), p) == 0
  {
    if n > 0 {
      assert seq<Local>(n, _ => Outside)[1..] == seq<Local>(n - 1, _ => Outside);
      CountOutside(n - 1, p);
    }
  }

  // ---------------------------------------------------------------------------
  // The invariant

  /** The descriptors that are in the ring. */
  ghost function Queue(s: State): seq<Descriptor>
    requires |s.gots| <= |s.subs|
  {
    s.subs[|s.gots|..]
  }

  ghost predicate LocalInv(s: State, t: nat)
    requires Shape(s) && t < |s.threads|
  {
    var l := s.threads[t];
    && (l.SubmitStore? || l.SubmitAdvance? || l.SubmitUnlock? <==> s.sMutex == Some(t))
    && (l.TakeLoad? || l.TakeAdvance? || l.TakeUnlock? <==> s.gMutex == Some(t))
    && (l.SubmitAdvance? ==> s.buffer[s.pHead] == l.bd)
    && (l.TakeAdvance? ==> |s.gots| < |s.subs| && l.bd == s.subs[|s.gots|])
  }

  /**
   What went out is what came in, in order; the slots hold the rest; and the semaphores together
   with the operations in flight always account for every slot of the ring.
   */
  ghost predicate Inv(s: State) {
    && SlotsInv(s)
    && s.notEmpty + Count(s.threads, Stored) + Count(s.threads, Loading) == |Queue(s)|
    && s.notFull + Count(s.threads, Storing) + Count(s.threads, Loaded) + |Queue(s)| == RING_SIZE
    && (forall t :: 0 <= t < |s.threads| ==> LocalInv(s, t))
  }

  lemma InitInv(n: nat)
    ensures Inv(InitRing(n))
  {
    CountOutside(n, Stored);
    CountOutside(n, Loading);
    CountOutside(n, Storing);
    CountOutside(n, Loaded);
  }

  /** Two positions less than a ring apart share a slot only if they are the same. */
  lemma SameSlot(i: nat, j: nat)
    requires i <= j < i + RING_SIZE
    ensures i % RING_SIZE == j % RING_SIZE ==> i == j
  {
  }

  /** Thread `t` has moved from one phase to another, and the semaphores have followed. */
  ghost predicate Moved(s: State, s': State, t: nat)
    requires t < |s.threads| == |s'.threads|
  {
    var from, to := PhaseOf(s.threads[t]), PhaseOf(s'.threads[t]);
    && s'.threads == s.threads[t := s'.threads[t]]
    && s'.notFull == s.notFull - (if from == Neutral && to == Storing then 1 else 0)
                               + (if from == Loaded && to == Neutral then 1 else 0)
    && s'.notEmpty == s.notEmpty - (if from == Neutral && to == Loading then 1 else 0)
                                 + (if from == Stored && to == Neutral then 1 else 0)
    && |s'.subs| == |s.subs| + (if from == Storing && to == Stored then 1 else 0)
    && |s'.gots| == |s.gots| + (if from == Loading && to == Loaded then 1 else 0)
    && (from == to || (from == Neutral && to in {Storing, Loading}) || (from == Storing && to == Stored)
        || (from == Loading && to == Loaded) || (from in {Stored, Loaded} && to == Neutral))
  }

  lemma PhaseStep(s: State, c: Choice)
    requires Shape(s) && Step(s, c).Some?
    ensures Moved(s, Step(s, c).value.0, c.tid)
  {
  }

  lemma SemaphoresStep(s: State, c: Choice)
    requires Inv(s) && Step(s, c).Some?
    ensures var s' := Step(s, c).value.0;
            && |s'.gots| <= |s'.subs|
            && s'.notEmpty + Count(s'.threads, Stored) + Count(s'.threads, Loading) == |Queue(s')|
            && s'.notFull + Count(s'.threads, Storing) + Count(s'.threads, Loaded) + |Queue(s')| == RING_SIZE
  {
    PhaseStep(s, c);
    var s' := Step(s, c).value.0;
    Accounting(s, s', c.tid);
  }

  lemma Accounting(s: State, s': State, t: nat)
    requires Inv(s) && t < |s.threads| == |s'.threads| && Moved(s, s', t)
    ensures |s'.gots| <= |s'.subs|
    ensures s'.notEmpty + Count(s'.threads, Stored) + Count(s'.threads, Loading) == |Queue(s')|
    ensures s'.notFull + Count(s'.threads, Storing) + Count(s'.threads, Loaded) + |Queue(s')| == RING_SIZE
  {
    var l := s'.threads[t];
    CountUpdate(s.threads, t, l, Stored);
    CountUpdate(s.threads, t, l, Loading);
    CountUpdate(s.threads, t, l, Storing);
    CountUpdate(s.threads, t, l, Loaded);
    CountPositive(s.threads, t);
  }

  lemma NextSlot(i: nat)
    ensures (i % RING_SIZE + 1) % RING_SIZE == (i + 1) % RING_SIZE
  {
  }

  /** The slots hold the descriptors in the ring, and both ends are in place. */
  ghost predicate SlotsInv(s: State) {
    && Shape(s)
    && |s.gots| <= |s.subs| && s.gots == s.subs[..|s.gots|]
    && s.pHead == |s.subs| % RING_SIZE
    && s.cTail == |s.gots| % RING_SIZE
    && (forall i :: |s.gots| <= i < |s.subs| ==> s.buffer[i % RING_SIZE] == s.subs[i])
  }

  lemma SlotsStep(s: State, c: Choice)
    requires Inv(s) && Step(s, c).Some?
    ensures SlotsInv(Step(s, c).value.0)
  {
    var s' := Step(s, c).value.0;
    CountPositive(s.threads, c.tid);
    assert LocalInv(s, c.tid);
    var l := s.threads[c.tid];
    if c.Advance? && l.SubmitStore? {
      forall i | |s'.gots| <= i < |s'.subs|
        ensures s'.buffer[i % RING_SIZE] == s'.subs[i]
      {
        SameSlot(i, |s.subs|);
      }
    } else if c.Advance? && l.SubmitAdvance? {
      NextSlot(|s.subs|);
    } else if c.Advance? && l.TakeAdvance? {
      NextSlot(|s.gots|);
    } else {
      Untouched(s, c);
    }
  }

  lemma Untouched(s: State, c: Choice)
    requires Inv(s) && Step(s, c).Some?
    requires c.Advance? ==>
               !s.threads[c.tid].SubmitStore? && !s.threads[c.tid].SubmitAdvance? && !s.threads[c.tid].TakeAdvance?
    ensures var s' := Step(s, c).value.0;
            s'.buffer == s.buffer && s'.pHead == s.pHead && s'.cTail == s.cTail && s'.subs == s.subs &&
              s'.gots == s.gots
  {
  }

  lemma ThreadsStep(s: State, c: Choice, u: nat)
    requires Inv(s) && Step(s, c).Some? && u < |s.threads|
    ensures LocalInv(Step(s, c).value.0, u)
  {
    hide Step, LocalInv;
    ItsThread(s, c);
    assert LocalInv(s, c.tid);
    CountPositive(s.threads, c.tid);
    if u != c.tid {
      OtherThread(s, c, u);
    } else {
      assert s.threads[u].TakeLoad? ==> s.buffer[|s.gots| % RING_SIZE] == s.subs[|s.gots|];
      OwnThread(s, c);
    }
  }

  lemma ItsThread(s: State, c: Choice)
    requires Shape(s) && Step(s, c).Some?
    ensures c.tid < |s.threads|
  {
  }

  lemma OwnThread(s: State, c: Choice)
    requires Shape(s) && Step(s, c).Some? && LocalInv(s, c.tid)
    requires s.threads[c.tid].TakeLoad? ==> |s.gots| < |s.subs| && s.buffer[s.cTail] == s.subs[|s.gots|]
    ensures LocalInv(Step(s, c).value.0, c.tid)
  {
  }

  lemma OtherThread(s: State, c: Choice, u: nat)
    requires Inv(s) && Step(s, c).Some? && u < |s.threads| && u != c.tid
    ensures LocalInv(Step(s, c).value.0, u)
  {
    assert LocalInv(s, u) && LocalInv(s, c.tid);
    var s' := Step(s, c).value.0;
    assert s'.threads[u] == s.threads[u];
    if c.Advance? && s.threads[c.tid].SubmitAdvance? {
      assert s'.subs[..|s.subs|] == s.subs;
    }
  }

  lemma InvStep(s: State, c: Choice)
    requires Inv(s) && Step(s, c).Some?
    ensures Inv(Step(s, c).value.0)
  {
    SemaphoresStep(s, c);
    SlotsStep(s, c);
    forall u | 0 <= u < |s.threads|
      ensures LocalInv(Step(s, c).value.0, u)
    {
      ThreadsStep(s, c, u);
    }
  }

  // ---------------------------------------------------------------------------
  // The abstraction

  function StatusOf(l: Local): Status<Op, Result> {
    match l
    case Outside => Idle
    case SubmitWait(bd) => Pending(Submit(bd))
    case SubmitLock(bd) => Pending(Submit(bd))
    case SubmitStore(bd) => Pending(Submit(bd))
    case SubmitAdvance(bd) => Pending(Submit(bd))
    case SubmitUnlock => Applied(Submitted)
    case SubmitPost => Applied(Submitted)
    case SubmitReturn => Applied(Submitted)
    case TakeWait => Pending(Take)
    case TakeLock => Pending(Take)
    case TakeLoad => Pending(Take)
    case TakeAdvance(_) => Pending(Take)
    case TakeUnlock(bd) => Applied(Took(bd))
    case TakePost(bd) => Applied(Took(bd))
    case TakeReturn(bd) => Applied(Took(bd))
  }

  ghost function Abs(s: State): Atomic<seq<Descriptor>, Op, Result>
    requires |s.gots| <= |s.subs|
  {
    Atomic(Queue(s), seq(|s.threads|, t requires 0 <= t < |s.threads| => StatusOf(s.threads[t])))
  }

  /** An operation takes effect when it advances its end of the ring. */
  function ActsOf(s: State, c: Choice): seq<Act<Op, Result>>
    requires Shape(s) && Step(s, c).Some?
  {
    match c
    case Start(t, op) => [Visible(Call(t, op))]
    case Advance(t) =>
      match s.threads[t]
      case SubmitAdvance(_) => [Effect(t)]
      case TakeAdvance(_) => [Effect(t)]
      case SubmitReturn => [Visible(Return(t, Submitted))]
      case TakeReturn(bd) => [Visible(Return(t, Took(bd)))]
      case _ => []
  }

  lemma StepRefines(s: State, c: Choice)
    requires Inv(s) && Step(s, c).Some?
    ensures var (s', es) := Step(s, c).value;
            && |s'.gots| <= |s'.subs|
            && Run(QueueObject, Abs(s), ActsOf(s, c)) == Some(Abs(s')) && Events(ActsOf(s, c)) == es
  {
    var (s', es) := Step(s, c).value;
    var acts := ActsOf(s, c);
    QueueStep(s, c);
    StatusStep(s, c);
    if acts != [] {
      assert acts[..0] == [];
      assert Run(QueueObject, Abs(s), acts[..0]) == Some(Abs(s));
      assert Events(acts[..0]) == [];
    }
  }

  lemma StatusStep(s: State, c: Choice)
    requires Shape(s) && |s.gots| <= |s.subs| && Step(s, c).Some? &&
             |Step(s, c).value.0.gots| <= |Step(s, c).value.0.subs|
    ensures var (s', es) := Step(s, c).value;
            var before, after := StatusOf(s.threads[c.tid]), StatusOf(s'.threads[c.tid]);
            && Abs(s').status == Abs(s).status[c.tid := after]
            && if ActsOf(s, c) == [] then es == [] && Abs(s').status == Abs(s).status
               else
                 match ActsOf(s, c)[0]
                 case Visible(e) => es == [e] && (if e.Call? then before == Idle && after == Pending(e.op)
                                                  else before == Applied(e.res) && after == Idle)
                 case Effect(_) => es == [] && before.Pending? && after.Applied?
  {
    var s' := Step(s, c).value.0;
    assert s'.threads == s.threads[c.tid := s'.threads[c.tid]];
  }

  lemma QueueStep(s: State, c: Choice)
    requires Inv(s) && Step(s, c).Some?
    ensures |Step(s, c).value.0.gots| <= |Step(s, c).value.0.subs|
    ensures var q, q' := Queue(s), Queue(Step(s, c).value.0);
            if c.Advance? && s.threads[c.tid].SubmitAdvance? then
              Apply(q, Submit(s.threads[c.tid].bd)) == Some((q', Submitted))
            else if c.Advance? && s.threads[c.tid].TakeAdvance? then
              Apply(q, Take) == Some((q', Took(s.threads[c.tid].bd)))
            else q' == q
  {
    CountPositive(s.threads, c.tid);
    assert LocalInv(s, c.tid);
    var s' := Step(s, c).value.0;
    if c.Advance? && s.threads[c.tid].SubmitAdvance? {
      assert Queue(s') == Queue(s) + [s.threads[c.tid].bd];
    } else if c.Advance? && s.threads[c.tid].TakeAdvance? {
      assert Queue(s') == Queue(s)[1..];
    }
  }

  // ---------------------------------------------------------------------------
  // Runs

  ghost function Explanation(n: nat, schedule: seq<Choice>): seq<Act<Op, Result>> {
    if schedule == [] then []
    else
      var s := Execute(n, schedule[..|schedule| - 1]).0;
      var c := schedule[|schedule| - 1];
      Explanation(n, schedule[..|schedule| - 1]) + (if Step(s, c).Some? then ActsOf(s, c) else [])
  }

  lemma {:induction false} Simulation(n: nat, schedule: seq<Choice>)
    ensures var (s, h) := Execute(n, schedule);
            && Inv(s)
            && Run(QueueObject, Initial(QueueObject, n), Explanation(n, schedule)) == Some(Abs(s))
            && Events(Explanation(n, schedule)) == h
  {
    if schedule == [] {
      InitInv(n);
      assert Abs(InitRing(n)) == Initial(QueueObject, n);
    } else {
      var earlier := schedule[..|schedule| - 1];
      var c := schedule[|schedule| - 1];
      Simulation(n, earlier);
      var s := Execute(n, earlier).0;
      if Step(s, c).Some? {
        InvStep(s, c);
        StepRefines(s, c);
        RunAppend(QueueObject, Initial(QueueObject, n), Explanation(n, earlier), ActsOf(s, c));
      } else {
        assert Explanation(n, schedule) == Explanation(n, earlier);
      }
    }
  }

  /** Every schedule of every number of threads shows the history of a bounded FIFO queue. */
  lemma RingIsQueue(n: nat, schedule: seq<Choice>)
    ensures Linearizable(QueueObject, n, Execute(n, schedule).1)
  {
    Simulation(n, schedule);
  }

  /** Nothing is got twice, out of order, or before it was submitted. */
  lemma FirstInFirstOut(n: nat, schedule: seq<Choice>)
    ensures var s := Execute(n, schedule).0; s.gots <= s.subs
  {
    Simulation(n, schedule);
  }

  /** The semaphore values and the operations between their wait and their post add up to the ring. */
  lemma SlotsAccountedFor(n: nat, schedule: seq<Choice>)
    ensures var s := Execute(n, schedule).0;
            s.notFull + s.notEmpty + Count(s.threads, Storing) + Count(s.threads, Stored)
            + Count(s.threads, Loading) + Count(s.threads, Loaded) == RING_SIZE
  {
    Simulation(n, schedule);
  }

  /** A thread that stores and a thread that loads never touch the same slot, and no unread slot is overwritten. */
  lemma NoRace(n: nat, schedule: seq<Choice>, t: nat, i: nat)
    ensures var s := Execute(n, schedule).0;
            && (t < n && (s.threads[t].SubmitStore? || s.threads[t].SubmitAdvance?) ==>
                  && (forall u :: 0 <= u < n && (s.threads[u].TakeLoad? || s.threads[u].TakeAdvance?) ==>
                      s.pHead != s.cTail)
                  && (forall u :: 0 <= u < n && u != t ==> !s.threads[u].SubmitStore? && !s.threads[u].SubmitAdvance?)
                  && (|s.gots| <= i < |s.subs| ==> i % RING_SIZE != s.pHead))
  {
    Simulation(n, schedule);
    var s := Execute(n, schedule).0;
    if t < n && (s.threads[t].SubmitStore? || s.threads[t].SubmitAdvance?) {
      assert LocalInv(s, t);
      CountPositive(s.threads, t);
      if |s.gots| <= i < |s.subs| {
        SameSlot(i, |s.subs|);
      }
      forall u | 0 <= u < n && (s.threads[u].TakeLoad? || s.threads[u].TakeAdvance?)
        ensures s.pHead != s.cTail
      {
        CountPositive(s.threads, u);
        SameSlot(|s.gots|, |s.subs|);
      }
      forall u | 0 <= u < n && u != t
        ensures !s.threads[u].SubmitStore? && !s.threads[u].SubmitAdvance?
      {
        assert LocalInv(s, u);
      }
    }
  }
}

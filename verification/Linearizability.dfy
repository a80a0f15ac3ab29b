/**
 Linearizability of a concurrent object, stated once for every object of the project.

 A run of an implementation shows a history: a sequence of calls and returns, each with the
 number of its thread. The history is linearizable when one invisible `Effect` can be put between
 every call and its return so that the effects, executed one at a time on the sequential object,
 give exactly the results that the history shows.
 */
module Linearizability {
  import opened Wrappers

  /** A sequential object: `apply` gives None while the operation has to wait. */
  datatype Object<!S, !O, !R> = Object(init: S, apply: (S, O) -> Option<(S, R)>)

  datatype Event<O, R> = Call(tid: nat, op: O) | Return(tid: nat, res: R)

  datatype Act<O, R> = Visible(event: Event<O, R>) | Effect(tid: nat)

  datatype Status<O, R> = Idle | Pending(op: O) | Applied(res: R)

  /** The object together with what each thread is doing with it. */
  datatype Atomic<S, O, R> = Atomic(obj: S, status: seq<Status<O, R>>)

  function Initial<S, O, R>(spec: Object<S, O, R>, n: nat): Atomic<S, O, R> {
    Atomic(spec.init, seq(n, _ => Idle))
  }

  function Tid<O, R>(act: Act<O, R>): nat {
    match act
    case Visible(e) => e.tid
    case Effect(t) => t
  }

  /** One act of the atomic object, None if the act is not possible. */
  function AtomicStep<S, O, R(==)>(spec: Object<S, O, R>, a: Atomic<S, O, R>, act: Act<O, R>): Option<Atomic<S, O, R>> {
    if Tid(act) >= |a.status| then None
    else
      match (act, a.status[Tid(act)])
      case (Visible(Call(t, op)), Idle) => Some(a.(status := a.status[t := Pending(op)]))
      case (Effect(t), Pending(op)) =>
        (match spec.apply(a.obj, op)
         case Some((obj, res)) => Some(Atomic(obj, a.status[t := Applied(res)]))
         case None => None)
      case (Visible(Return(t, r)), Applied(res)) =>
        if r == res then Some(a.(status := a.status[t := Idle])) else None
      case _ => None
  }

  /** All acts in order, None if one of them is not possible. */
  function Run<S, O, R(==)>(spec: Object<S, O, R>, a: Atomic<S, O, R>, acts: seq<Act<O, R>>): Option<Atomic<S, O, R>> {
    if acts == [] then Some(a)
    else
      match Run(spec, a, acts[..|acts| - 1])
      case Some(b) => AtomicStep(spec, b, acts[|acts| - 1])
      case None => None
  }

  function Events<O, R>(acts: seq<Act<O, R>>): seq<Event<O, R>> {
    if acts == [] then []
    else Events(acts[..|acts| - 1]) + (match acts[|acts| - 1] case Visible(e) => [e] case Effect(_) => [])
  }

  ghost predicate Linearizable<S(!new), O(!new), R(!new)>(spec: Object<S, O, R>, n: nat, history: seq<Event<O, R>>) {
    exists acts :: Run(spec, Initial(spec, n), acts).Some? && Events(acts) == history
  }

  /** The operations in the order of their effects, with their results. */
  function Effects<S, O, R(==)>(spec: Object<S, O, R>, a: Atomic<S, O, R>, acts: seq<Act<O, R>>): seq<(O, R)>
    requires Run(spec, a, acts).Some?
  {
    if acts == [] then []
    else
      var init := acts[..|acts| - 1];
      var b := Run(spec, a, init).value;
      var t := Tid(acts[|acts| - 1]);
      var c := Run(spec, a, acts).value;
      Effects(spec, a, init) +
      (if acts[|acts| - 1].Effect? then [(b.status[t].op, c.status[t].res)] else [])
  }

  /** A sequential execution: one operation after the other, each with the result it really has. */
  function Replay<S, O, R(==)>(spec: Object<S, O, R>, s: S, ops: seq<(O, R)>): Option<S> {
    if ops == [] then Some(s)
    else
      match Replay(spec, s, ops[..|ops| - 1])
      case None => None
      case Some(s1) =>
        (match spec.apply(s1, ops[|ops| - 1].0)
         case Some((s2, r)) => if r == ops[|ops| - 1].1 then Some(s2) else None
         case None => None)
  }

  /** The effects of a run are a legal sequential execution that ends in the object's state. */
  lemma {:induction false} EffectsReplay<S, O, R>(spec: Object<S, O, R>, a: Atomic<S, O, R>, acts: seq<Act<O, R>>)
    requires Run(spec, a, acts).Some?
    ensures Replay(spec, a.obj, Effects(spec, a, acts)) == Some(Run(spec, a, acts).value.obj)
  {
    if acts != [] {
      var init := acts[..|acts| - 1];
      EffectsReplay(spec, a, init);
      var ops := Effects(spec, a, acts);
      if acts[|acts| - 1].Effect? {
        assert ops[..|ops| - 1] == Effects(spec, a, init);
      } else {
        assert ops == Effects(spec, a, init);
      }
    }
  }

  /** Position `i` is the last act of thread `t` before position `j`. */
  ghost predicate LastBefore<O, R>(acts: seq<Act<O, R>>, t: nat, i: nat, j: nat) {
    i < j <= |acts| && Tid(acts[i]) == t && forall m :: i < m < j ==> Tid(acts[m]) != t
  }

  /** What a thread is doing is what its last act says. */
  lemma {:induction false} StatusTellsLastAct<S, O, R>(spec: Object<S, O, R>, n: nat, acts: seq<Act<O, R>>, t: nat)
    returns (i: nat)
    requires Run(spec, Initial(spec, n), acts).Some?
    requires t < n
    ensures |Run(spec, Initial(spec, n), acts).value.status| == n
    ensures var st := Run(spec, Initial(spec, n), acts).value.status[t];
            match st
            case Idle => true
            case Pending(op) => LastBefore(acts, t, i, |acts|) && acts[i] == Visible(Call(t, op))
            case Applied(res) => LastBefore(acts, t, i, |acts|) && acts[i] == Effect(t)
  {
    i := 0;
    if acts != [] {
      var init := acts[..|acts| - 1];
      i := StatusTellsLastAct(spec, n, init, t);
      if Tid(acts[|acts| - 1]) == t {
        i := |acts| - 1;
      }
    }
  }

  /**
   Real-time order: when a run returns `res` to a thread, that thread's previous act is an effect
   that gave `res` on the object of that instant, and the act before it is the call.
   */
  lemma ReturnFollowsEffect<S, O, R>(spec: Object<S, O, R>, n: nat, acts: seq<Act<O, R>>, j: nat, t: nat, res: R)
    returns (c: nat, e: nat, op: O)
    requires Run(spec, Initial(spec, n), acts).Some?
    requires j < |acts| && acts[j] == Visible(Return(t, res))
    ensures LastBefore(acts, t, e, j) && acts[e] == Effect(t)
    ensures LastBefore(acts, t, c, e) && acts[c] == Visible(Call(t, op))
    ensures Run(spec, Initial(spec, n), acts[..e]).Some?
    ensures var obj := Run(spec, Initial(spec, n), acts[..e]).value.obj;
            spec.apply(obj, op).Some? && spec.apply(obj, op).value.1 == res
  {
    hide Run;
    RunStep(spec, Initial(spec, n), acts, j);
    e := StatusTellsLastAct(spec, n, acts[..j], t);
    ResultOfEffect(spec, n, acts, t, e, j);
    RunStep(spec, Initial(spec, n), acts, e);
    c := StatusTellsLastAct(spec, n, acts[..e], t);
    op := Run(spec, Initial(spec, n), acts[..e]).value.status[t].op;
  }

  /** Every act of a run was possible where it stands. */
  lemma RunStep<S, O, R>(spec: Object<S, O, R>, a: Atomic<S, O, R>, acts: seq<Act<O, R>>, j: nat)
    requires Run(spec, a, acts).Some? && j < |acts|
    ensures Run(spec, a, acts[..j]).Some? && Run(spec, a, acts[..j + 1]).Some?
    ensures AtomicStep(spec, Run(spec, a, acts[..j]).value, acts[j]) == Run(spec, a, acts[..j + 1])
    ensures |Run(spec, a, acts[..j]).value.status| == |a.status|
  {
    RunPrefix(spec, a, acts, j + 1);
    RunPrefix(spec, a, acts, j);
    StatusLength(spec, a, acts[..j]);
    assert acts[..j + 1][..j] == acts[..j];
  }

  lemma {:induction false} RunPrefix<S, O, R>(spec: Object<S, O, R>, a: Atomic<S, O, R>, acts: seq<Act<O, R>>, j: nat)
    requires Run(spec, a, acts).Some? && j <= |acts|
    ensures Run(spec, a, acts[..j]).Some?
  {
    if j < |acts| {
      var init := acts[..|acts| - 1];
      RunPrefix(spec, a, init, j);
      assert init[..j] == acts[..j];
    } else {
      assert acts[..j] == acts;
    }
  }

  lemma {:induction false} StatusLength<S, O, R>(spec: Object<S, O, R>, a: Atomic<S, O, R>, acts: seq<Act<O, R>>)
    requires Run(spec, a, acts).Some?
    ensures |Run(spec, a, acts).value.status| == |a.status|
  {
    if acts != [] {
      StatusLength(spec, a, acts[..|acts| - 1]);
    }
  }

  /** While a thread does nothing, its status stays what its last act left. */
  lemma {:induction false} ResultOfEffect<S, O, R>(spec: Object<S, O, R>, n: nat, acts: seq<Act<O, R>>, t: nat, e: nat,
                                                   j: nat)
    requires Run(spec, Initial(spec, n), acts).Some?
    requires LastBefore(acts, t, e, j) && t < n
    ensures Run(spec, Initial(spec, n), acts[..j]).Some? && Run(spec, Initial(spec, n), acts[..e + 1]).Some?
    ensures |Run(spec, Initial(spec, n), acts[..j]).value.status| == n
    ensures |Run(spec, Initial(spec, n), acts[..e + 1]).value.status| == n
    ensures Run(spec, Initial(spec, n), acts[..j]).value.status[t] ==
              Run(spec, Initial(spec, n), acts[..e + 1]).value.status[t]
    decreases j
  {
    RunPrefix(spec, Initial(spec, n), acts, j);
    RunPrefix(spec, Initial(spec, n), acts, e + 1);
    StatusLength(spec, Initial(spec, n), acts[..j]);
    StatusLength(spec, Initial(spec, n), acts[..e + 1]);
    if j > e + 1 {
      ResultOfEffect(spec, n, acts, t, e, j - 1);
      assert acts[..j][..j - 1] == acts[..j - 1];
      assert acts[..j][j - 1] == acts[j - 1];
    }
  }

  /** Runs and their histories can be continued. */
  lemma {:induction false} RunAppend<S, O, R>(spec: Object<S, O, R>, a: Atomic<S, O, R>, acts: seq<Act<O, R>>,
                                              more: seq<Act<O, R>>)
    requires Run(spec, a, acts).Some? && Run(spec, Run(spec, a, acts).value, more).Some?
    ensures Run(spec, a, acts + more) == Run(spec, Run(spec, a, acts).value, more)
    ensures Events(acts + more) == Events(acts) + Events(more)
  {
    if more == [] {
      assert acts + more == acts;
    } else {
      var init := more[..|more| - 1];
      RunAppend(spec, a, acts, init);
      assert (acts + more)[..|acts + more| - 1] == acts + init;
    }
  }
}

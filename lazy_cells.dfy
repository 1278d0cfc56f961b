/**
  The four lazy cell classes. Each keeps its slot in the mutable field `box`
  (Swift `_boxedValue`) and the number of computations it has invoked in
  `invocations`. Every method changes these fields exactly as the matching
  function of module LazyBox says, so the properties proved about those
  functions and about sequences of accesses (module LazyRuns) hold of the
  objects; the two methods at the end show this for concrete call
  sequences.
 */
module LazyCells {
  import opened LazyBox

  /** A cell whose computation cannot throw; once evaluated the computation is gone. */
  class LazyValue<V, E> {
    var box: Box<V, Computation<V>, E>
    var invocations: nat

    /** The `error` state, which only a throwing computation could produce, never holds. */
    ghost predicate Valid()
      reads this
    {
      !box.Error?
    }

    ghost function State(): Cell<V, Computation<V>, E>
      reads this
    {
      Cell(box, invocations)
    }

    constructor (block: Computation<V>)
      ensures Valid()
      ensures State() == Fresh(block)
    {
      box := NotComputed(block);
      invocations := 0;
    }

    /** The `value` getter. */
    method Value() returns (v: V)
      requires Valid()
      modifies this
      ensures Valid()
      ensures Access(State(), v) == ValueOf(old(State()))
    {
      match box
      case Computed(val) =>
        v := val;
      case NotComputed(compute) =>
        v := compute(invocations);
        box := Computed(v);
        invocations := invocations + 1;
      case Error(_) =>
        // the source's fatalError: ruled out by Valid()
        assert false;
    }
  }

  /** A cell whose computation may throw; a thrown error is cached. */
  class LazyThrowableValue<V, E> {
    var box: Box<V, ThrowingComputation<V, E>, E>
    var invocations: nat

    ghost function State(): Cell<V, ThrowingComputation<V, E>, E>
      reads this
    {
      Cell(box, invocations)
    }

    constructor (block: ThrowingComputation<V, E>)
      ensures State() == Fresh(block)
    {
      box := NotComputed(block);
      invocations := 0;
    }

    /** The `error` accessor: reads the slot and never evaluates anything. */
    function CurrentError(): (r: Option<E>)
      reads this
      ensures r.Some? <==> box.Error?
      ensures r.Some? ==> box == Error(r.value)
    {
      ErrorOf(box)
    }

    /** `tryValue()`: the value, or the error thrown now or cached from before. */
    method TryValue() returns (r: Attempt<V, E>)
      modifies this
      ensures Access(State(), r) == TryValueOf(old(State()))
    {
      match box
      case Computed(val) =>
        r := Returned(val);
      case NotComputed(compute) =>
        r := compute(invocations);
        match r {
          case Returned(val) => box := Computed(val);
          case Threw(err) => box := Error(err);
        }
        invocations := invocations + 1;
      case Error(err) =>
        r := Threw(err);
    }
  }

  /** A non-throwing cell that keeps its computation so that `Reset` can re-arm it. */
  class LazyResetableValue<V, E> {
    var box: Box<V, Computation<V>, E>
    var invocations: nat
    const computation: Computation<V>

    /** No `error` state, and an armed slot holds the original computation. */
    ghost predicate Valid()
      reads this
    {
      !box.Error? && (box.NotComputed? ==> box.computation == computation)
    }

    ghost function State(): Cell<V, Computation<V>, E>
      reads this
    {
      Cell(box, invocations)
    }

    constructor (block: Computation<V>)
      ensures Valid()
      ensures State() == Fresh(block) && computation == block
    {
      computation := block;
      box := NotComputed(block);
      invocations := 0;
    }

    /** The `value` getter, shared with LazyValue; only an `error` slot, where the source traps, is excluded. */
    method Value() returns (v: V)
      requires !box.Error?
      modifies this
      ensures Valid()
      ensures Access(State(), v) == ValueOf(old(State()))
    {
      match box
      case Computed(val) =>
        v := val;
      case NotComputed(compute) =>
        v := compute(invocations);
        box := Computed(v);
        invocations := invocations + 1;
      case Error(_) =>
        // the source's fatalError: ruled out by the precondition
        assert false;
    }

    /** `reset()`: from any state, armed again with the original computation. */
    method Reset()
      modifies this
      ensures Valid()
      ensures State() == Rearm(old(State()), computation)
    {
      box := NotComputed(computation);
    }
  }

  /** A throwing cell that keeps its computation so that `Reset` can re-arm it. */
  class LazyResetableThrowableValue<V, E> {
    var box: Box<V, ThrowingComputation<V, E>, E>
    var invocations: nat
    const computation: ThrowingComputation<V, E>

    /** An armed slot holds the original computation. */
    ghost predicate Valid()
      reads this
    {
      box.NotComputed? ==> box.computation == computation
    }

    ghost function State(): Cell<V, ThrowingComputation<V, E>, E>
      reads this
    {
      Cell(box, invocations)
    }

    constructor (block: ThrowingComputation<V, E>)
      ensures Valid()
      ensures State() == Fresh(block) && computation == block
    {
      computation := block;
      box := NotComputed(block);
      invocations := 0;
    }

    /** The `error` accessor, shared with LazyThrowableValue. */
    function CurrentError(): (r: Option<E>)
      reads this
      ensures r.Some? <==> box.Error?
      ensures r.Some? ==> box == Error(r.value)
    {
      ErrorOf(box)
    }

    /** `tryValue()`, shared with LazyThrowableValue; it accepts any slot. */
    method TryValue() returns (r: Attempt<V, E>)
      modifies this
      ensures Valid()
      ensures Access(State(), r) == TryValueOf(old(State()))
    {
      match box
      case Computed(val) =>
        r := Returned(val);
      case NotComputed(compute) =>
        r := compute(invocations);
        match r {
          case Returned(val) => box := Computed(val);
          case Threw(err) => box := Error(err);
        }
        invocations := invocations + 1;
      case Error(err) =>
        r := Threw(err);
    }

    /** `reset()`: from any state, a cached error included, armed again with the original computation. */
    method Reset()
      modifies this
      ensures Valid()
      ensures State() == Rearm(old(State()), computation)
    {
      box := NotComputed(computation);
    }
  }

  /**
    Access, access, reset, access on a new resettable cell: the first two
    accesses hand out the computation's first result, the third its second,
    and the computation has run twice.
   */
  method ResetableValueScenario<V, E>(block: Computation<V>) returns (a: V, b: V, c: V, n: nat)
    ensures a == block(0) && b == block(0) && c == block(1)
    ensures n == 2
  {
    var cell := new LazyResetableValue<V, E>(block);
    a := cell.Value();
    b := cell.Value();
    cell.Reset();
    c := cell.Value();
    n := cell.invocations;
  }

  /**
    A throwing resettable cell whose computation fails the first time: the
    failure is thrown twice without a retry and reported by the `error`
    accessor; after a reset the computation runs again and its second
    outcome is handed out.
   */
  method ResetableThrowableScenario<V, E>(block: ThrowingComputation<V, E>, e: E)
    returns (first: Attempt<V, E>, second: Attempt<V, E>, reported: Option<E>, retried: Attempt<V, E>, n: nat)
    requires block(0) == Threw(e)
    ensures first == Threw(e) && second == Threw(e) && reported == Some(e)
    ensures retried == block(1) && n == 2
  {
    var cell := new LazyResetableThrowableValue<V, E>(block);
    first := cell.TryValue();
    second := cell.TryValue();
    reported := cell.CurrentError();
    cell.Reset();
    retried := cell.TryValue();
    n := cell.invocations;
  }
}

/**
  The single slot of a lazy cell and the meaning of one access to it.

  A lazy cell holds a `Box`: a computation that has not run yet, the value it
  produced, or the error it threw. The functions of this module give the
  effect of one `value` access, one `tryValue()` call, the `error` accessor
  and `reset()` on the slot; the classes of module LazyCells change their
  fields exactly as these functions say.

  A Swift closure may keep private state from one call to the next, so the
  model gives a computation the number of times it has already been invoked
  and lets it answer differently each time. A cell records that number in
  `invocations`.
 */
module LazyBox {

  /** The three states of the slot (Swift enum `LazyValueBox`). */
  datatype Box<V, C, E> =
    | NotComputed(computation: C)
    | Computed(value: V)
    | Error(error: E)

  /** What a throwing computation does: return a value or throw an error. */
  datatype Attempt<V, E> = Returned(value: V) | Threw(error: E)

  datatype Option<T> = None | Some(value: T)

  /** A non-throwing computation `() -> Value`; its argument counts earlier invocations. */
  type Computation<V> = nat -> V

  /** A throwing computation `() throws -> Value`; its argument counts earlier invocations. */
  type ThrowingComputation<V, E> = nat -> Attempt<V, E>

  /** The slot of a cell together with how often the cell has invoked a computation. */
  datatype Cell<V, C, E> = Cell(box: Box<V, C, E>, invocations: nat)

  /** The cell after an access, and what the access gave back to its caller. */
  datatype Access<V, C, E, R> = Access(after: Cell<V, C, E>, result: R)

  /** A cell as its initialiser leaves it: armed with `block`, never invoked. */
  function Fresh<V, C, E>(block: C): (r: Cell<V, C, E>)
    ensures Armed(r) && r.box.computation == block
    ensures r.invocations == 0
  {
    Cell(NotComputed(block), 0)
  }

  /** True when the next access will invoke the computation held in the slot. */
  predicate Armed<V, C, E>(c: Cell<V, C, E>)
  {
    c.box.NotComputed?
  }

  /**
    The mutating `value` getter of a cell whose computation cannot throw.
    The source traps on an `error` slot; such a slot is excluded here and
    shown unreachable for the non-throwing cells.
   */
  function ValueOf<V, E>(c: Cell<V, Computation<V>, E>): (a: Access<V, Computation<V>, E, V>)
    requires !c.box.Error?
    // afterwards the slot caches exactly the value handed out
    ensures a.after.box == Computed(a.result)
    // a cached value is handed out as it is, and nothing is invoked
    ensures c.box.Computed? ==> a.result == c.box.value && a.after == c
    // an armed slot invokes its computation once and hands out what it produced
    ensures Armed(c) ==> a.result == c.box.computation(c.invocations)
    ensures a.after.invocations == c.invocations + (if Armed(c) then 1 else 0)
  {
    match c.box
    case Computed(v) => Access(c, v)
    case NotComputed(compute) =>
      var v := compute(c.invocations);
      Access(Cell(Computed(v), c.invocations + 1), v)
  }

  /** `tryValue()`: like `value`, but a thrown error is cached and thrown again later. */
  function TryValueOf<V, E>(c: Cell<V, ThrowingComputation<V, E>, E>): (a: Access<V, ThrowingComputation<V, E>, E, Attempt<V, E>>)
    // afterwards the slot holds the outcome handed out: the value, or the error
    ensures a.result.Returned? ==> a.after.box == Computed(a.result.value)
    ensures a.result.Threw? ==> a.after.box == Error(a.result.error)
    // a cached value or a cached error comes back unchanged, and nothing is invoked
    ensures c.box.Computed? ==> a.result == Returned(c.box.value) && a.after == c
    ensures c.box.Error? ==> a.result == Threw(c.box.error) && a.after == c
    // an armed slot invokes its computation once, success or failure alike
    ensures Armed(c) ==> a.result == c.box.computation(c.invocations)
    ensures a.after.invocations == c.invocations + (if Armed(c) then 1 else 0)
  {
    match c.box
    case Computed(v) => Access(c, Returned(v))
    case NotComputed(compute) =>
      var outcome := compute(c.invocations);
      var box := match outcome
        case Returned(v) => Computed(v)
        case Threw(e) => Error(e);
      Access(Cell(box, c.invocations + 1), outcome)
    case Error(e) => Access(c, Threw(e))
  }

  /** The read-only `error` accessor: the cached error, if there is one. */
  function ErrorOf<V, C, E>(box: Box<V, C, E>): (r: Option<E>)
    ensures r.Some? <==> box.Error?
    ensures r.Some? ==> box == Error(r.value)
  {
    match box
    case Error(e) => Some(e)
    case _ => None
  }

  /** `reset()`: the slot is armed again with the cell's original computation. */
  function Rearm<V, C, E>(c: Cell<V, C, E>, original: C): (r: Cell<V, C, E>)
    ensures Armed(r) && r.box.computation == original
    ensures r.invocations == c.invocations
  {
    Cell(NotComputed(original), c.invocations)
  }

  /** The error accessor reports a failure of `tryValue()` exactly when that call threw it. */
  lemma ErrorReportsTryValue<V, E>(c: Cell<V, ThrowingComputation<V, E>, E>, e: E)
    ensures ErrorOf(TryValueOf(c).after.box) == Some(e) <==> TryValueOf(c).result == Threw(e)
  {
  }

  /** After `reset()` the next access invokes the original computation exactly once more. */
  lemma ResetRearmsValue<V, E>(c: Cell<V, Computation<V>, E>, original: Computation<V>)
    ensures ValueOf(Rearm(c, original)).result == original(c.invocations)
    ensures ValueOf(Rearm(c, original)).after == Cell(Computed(original(c.invocations)), c.invocations + 1)
  {
  }

  /** The same for `tryValue()`, whatever the earlier state, a cached error included. */
  lemma ResetRearmsTryValue<V, E>(c: Cell<V, ThrowingComputation<V, E>, E>, original: ThrowingComputation<V, E>)
    ensures TryValueOf(Rearm(c, original)).result == original(c.invocations)
    ensures TryValueOf(Rearm(c, original)).after.invocations == c.invocations + 1
  {
  }
}

# Lazy value cells, modelled in Dafny

This project models the lazy value cells of `src/LazyValue.swift`. A cell holds one slot, `LazyValueBox`, in one of three states:

- `notComputed(computation)`: a computation that has not run yet;
- `computed(value)`: the value that computation produced;
- `error(Error)`: the error it threw.

The first access runs the computation and caches its outcome. Every later access hands out the cached outcome without running the computation again. The library has four cell classes:

- `LazyValue`: the computation cannot throw.
- `LazyThrowableValue`: the computation may throw. A thrown error is cached and thrown again by later calls.
- `LazyResetableValue` and `LazyResetableThrowableValue`: they also keep the original computation in a separate `computation` field. `reset()` uses it to arm the cell again.

The model has three modules:

- `LazyBox` (`lazy_box.dfy`) defines the slot as the datatype `Box`. It also defines, as functions, what one `value` access, one `tryValue()` call, the `error` accessor and `reset()` do to it. These are the protocol extensions `LazyValuable` and `ResetableLazyValuable`.
- `LazyCells` (`lazy_cells.dfy`) holds the four classes. Each has a mutable `box` field (Swift `_boxedValue`). The resettable ones also have a `computation` field. Each method updates the fields in place, and its postcondition ties the new state and the result to the matching `LazyBox` function.
- `LazyRuns` (`lazy_runs.dfy`) replays a sequence of accesses and resets on a cell. Its lemmas prove the cell's promises for any such sequence:
  - exactly one evaluation per arming that is followed by an access, and none for an arming that is not;
  - a stable cached value;
  - a cached error that is thrown again unchanged;
  - a non-throwing cell never reaches the `error` state;
  - `reset()` arms the cell again.

A Swift closure may keep mutable state between calls, so one closure can return different results when invoked again after a reset. The model therefore represents a computation as a total function. Its argument is the number of times the cell has already invoked a computation, and it gives the result of that invocation: `Computation<V> = nat -> V`, or `ThrowingComputation<V, E> = nat -> Attempt<V, E>` for a throwing one. Each cell keeps that count in its `invocations` field, which exists only in the model. This count is how "at most once" and "exactly once more after reset" are stated. The Swift `Error` existential is the type parameter `E`.

In the source, the Swift enum has an `error` case even for non-throwing cells, and their `value` getter traps with `fatalError` on it. The model keeps that case in `Box`:

- The non-throwing classes carry the invariant `!box.Error?`. In their `Value` methods the trap branch is the statement `assert false`, which is proved unreachable.
- The pure `LazyBox.ValueOf` requires a slot that is not in the `error` state.
- `LazyRuns.RunValue` shows that no sequence of accesses and resets ever produces that state.

## Model

| member | source | states |
|---|---|---|
| LazyBox.ValueOf | src/LazyValue.swift:28-42 | The `value` getter. Afterwards the slot caches exactly the value returned. A `computed(v)` slot returns `v`, changes nothing and invokes nothing. A `notComputed(f)` slot invokes `f` once and returns what it produced. The invocation count rises by 1 exactly when the slot was armed. |
| LazyBox.TryValueOf | src/LazyValue.swift:56-73 | `tryValue()`. A success leaves `computed(v)`, a failure leaves `error(e)` with the same `e` that was thrown. A cached value or a cached error is given back unchanged, with no invocation and no state change. An armed slot invokes its computation once, whether it succeeds or fails. |
| LazyBox.ErrorOf | src/LazyValue.swift:47-54 | The `error` accessor returns `Some(e)` exactly when the slot is `error(e)`, and `None` otherwise. |
| LazyBox.Fresh | src/LazyValue.swift:102-104 | The state every initialiser leaves: the slot is `notComputed(block)` and the invocation count is 0. |
| LazyBox.Rearm | src/LazyValue.swift:84-86 | `reset()`: the slot becomes `notComputed(original)` and the invocation count is unchanged. |
| LazyBox.ErrorReportsTryValue | src/LazyValue.swift:47-73 | After a `tryValue()` call, the `error` accessor reports `e` exactly when that call threw `e`. |
| LazyBox.ResetRearmsValue | src/LazyValue.swift:84-86 | After `reset()` from any state, the next `value` invokes the original computation once more and caches its result. |
| LazyBox.ResetRearmsTryValue | src/LazyValue.swift:84-86 | After `reset()` from any state, a cached error included, the next `tryValue()` invokes the original computation once more and gives its outcome. |
| LazyCells.LazyValue.constructor | src/LazyValue.swift:102-104 | A new cell is `notComputed(block)`, has never invoked anything, and is not in the `error` state. |
| LazyCells.LazyValue.Value | src/LazyValue.swift:28-42 | The new fields and the result are those `LazyBox.ValueOf` gives for the old fields. The cell stays out of the `error` state, so the `fatalError` branch is unreachable. |
| LazyCells.LazyThrowableValue.constructor | src/LazyValue.swift:117-119 | A new cell is `notComputed(block)` and has never invoked anything. |
| LazyCells.LazyThrowableValue.CurrentError | src/LazyValue.swift:47-54 | Reads the slot only. Returns `Some(e)` exactly when the slot is `error(e)`. |
| LazyCells.LazyThrowableValue.TryValue | src/LazyValue.swift:56-73 | The new fields and the outcome are those `LazyBox.TryValueOf` gives for the old fields. |
| LazyCells.LazyResetableValue.constructor | src/LazyValue.swift:130-133 | A new cell is `notComputed(block)`, keeps the same `block` in `computation`, and has never invoked anything. |
| LazyCells.LazyResetableValue.Value | src/LazyValue.swift:28-42 | As `LazyValue.Value`, from any slot except `error`, where the source traps. Afterwards the class invariant holds: no `error` slot, and an armed slot holds the original computation. |
| LazyCells.LazyResetableValue.Reset | src/LazyValue.swift:84-86 | From any state, with no precondition, an `error` slot included, the slot becomes `notComputed(computation)`. `computation` and the invocation count are unchanged. |
| LazyCells.LazyResetableThrowableValue.constructor | src/LazyValue.swift:145-148 | A new cell is `notComputed(block)`, keeps the same `block` in `computation`, and has never invoked anything. |
| LazyCells.LazyResetableThrowableValue.CurrentError | src/LazyValue.swift:47-54 | Same as `LazyThrowableValue.CurrentError`. |
| LazyCells.LazyResetableThrowableValue.TryValue | src/LazyValue.swift:56-73 | As `LazyThrowableValue.TryValue`, from any slot. Afterwards an armed slot holds the original computation. |
| LazyCells.LazyResetableThrowableValue.Reset | src/LazyValue.swift:84-86 | From any state, with no precondition, a cached error included, the slot becomes `notComputed(computation)`. `computation` and the invocation count are unchanged. |
| LazyCells.ResetableValueScenario | src/LazyValue.swift:28-42 | On a new `LazyResetableValue`, the calls `value`, `value`, `reset()`, `value` return `block(0)`, `block(0)`, `block(1)`, and the computation runs twice. |
| LazyCells.ResetableThrowableScenario | src/LazyValue.swift:56-73 | On a new `LazyResetableThrowableValue` whose block first throws `e`: two `tryValue()` calls both throw `e`, the `error` accessor reports `e`, and after `reset()` the next `tryValue()` gives the block's second outcome. The computation runs twice in all. |
| LazyRuns.RunValue | src/LazyValue.swift:28-42 | On a non-throwing cell, no sequence of `value` accesses and resets ever reaches the `error` state. Each access returns one value. |
| LazyRuns.RunTryValue | src/LazyValue.swift:56-73 | Each `tryValue()` call in a sequence gives one outcome, and the invocation count never decreases. |
| LazyRuns.ValueAtMostOnce | src/LazyValue.swift:33-36 | Without a reset, any number of `value` accesses invokes the computation exactly once if the cell was armed and accessed at all, and otherwise never. |
| LazyRuns.ValueStable | src/LazyValue.swift:30-36 | Without a reset, every `value` access returns what the first returned, and the cell keeps `computed` of that value. This holds even when a further invocation would have produced something else. |
| LazyRuns.ValueInvocationsBound | src/LazyValue.swift:84-86 | With resets, there is at most one invocation for the initial arming plus one per reset, and never more invocations than accesses. |
| LazyRuns.RunValueSplit | src/LazyValue.swift:28-42 | Running `s + t` on a non-throwing cell is running `s`, then running `t` on the cell `s` leaves. The results are concatenated. |
| LazyRuns.ValueOncePerArming | src/LazyValue.swift:84-86 | After any earlier calls, a `reset()` followed by accesses without a further reset invokes the original computation exactly once more. Every one of those accesses returns the result of that invocation. |
| LazyRuns.ValueResetValue | src/LazyValue.swift:84-86 | Access, reset, access on a new cell invokes the computation twice. The two accesses return its first and its second result. |
| LazyRuns.ResetBeforeValue | src/LazyValue.swift:84-86 | A reset before the first access has no effect: the computation still runs exactly once. |
| LazyRuns.TryValueAtMostOnce | src/LazyValue.swift:60-68 | Without a reset, any number of `tryValue()` calls invokes the computation at most once, whether it returns or throws. |
| LazyRuns.TryValueStable | src/LazyValue.swift:57-72 | Without a reset, every `tryValue()` call gives the outcome of the first: the same value, or the same error again. The cell stays as the first call left it. |
| LazyRuns.FailureCached | src/LazyValue.swift:70-71 | On an `error(e)` cell without a reset, every `tryValue()` call throws `e` unchanged. The cell stays exactly as it was and invokes nothing. |
| LazyRuns.ErrorReportsLastAccess | src/LazyValue.swift:47-54 | After any sequence of calls, the `error` accessor reports `e` exactly when the last call was a `tryValue()` that threw `e`. After a final reset it reports nothing. |
| LazyRuns.TryValueInvocationsBound | src/LazyValue.swift:84-86 | With resets, failures included, there is at most one invocation for the initial arming plus one per reset, and never more invocations than accesses. |
| LazyRuns.RunTryValueSplit | src/LazyValue.swift:56-73 | Running `s + t` on a throwing cell is running `s`, then running `t` on the cell `s` leaves. The outcomes are concatenated. |
| LazyRuns.TryValueOncePerArming | src/LazyValue.swift:84-86 | After any earlier calls, a cached error included, a `reset()` followed by `tryValue()` calls without a further reset invokes the original computation exactly once more. Every one of those calls gives the outcome of that invocation. |
| LazyRuns.ResetRetriesFailure | src/LazyValue.swift:84-86 | A reset after a cached failure retries: the next `tryValue()` invokes the original computation again and gives its new outcome. |

## Left out

- `src/OperationWithError.swift` is not part of this model. It is an adapter over the platform's `Operation`/`Progress` task types, and its behaviour is about cancelling concurrent tasks.
- `src/Reference.swift` is not part of this model. `ReferenceTo` is a one-field box. `WeakReferenceTo` depends on the runtime zeroing `weak` references.
- Concurrent first access is not modelled. The source has no synchronisation, so only single-threaded use is modelled.
- Swift picks `value` or `tryValue()`/`error` by the type of the computation (the constrained protocol extensions). The model has separate non-throwing and throwing operations instead of overload resolution.
- Inheritance is not modelled. In the source, `LazyResetableValue` and `LazyResetableThrowableValue` are subclasses of `LazyValue` and `LazyThrowableValue`. Dafny classes here cannot inherit, so each resettable class repeats the access methods. All four classes share the semantics defined once in `LazyBox`.
- The closures' contents and the release of a computation once it has been evaluated are not modelled. Retention is not observable behaviour.
- Only the cell itself invokes a computation. A closure whose captured state is changed by other code between invocations is not modelled.
- The `computation` field of both resettable classes is a `const`. In Swift it is a public `var` that the library never reassigns. A client assigning it directly, which would leave an armed slot holding a different block, is not modelled.
- A computation that accesses or resets its own cell while it runs is not modelled. In the source the slot still reads `notComputed` during the call, because it is written only after `compute()` returns (src/LazyValue.swift:34-35, 62-66). A re-entrant access therefore invokes the computation a second time, and the outer access then overwrites the slot. The model treats each access as one atomic step. The at-most-once and stability lemmas (`ValueAtMostOnce`, `ValueStable`, `TryValueAtMostOnce`, `TryValueStable` and the per-arming lemmas) hold only for computations that do not re-enter their cell.
- A client writing `_boxedValue` directly is not modelled as an operation. The property is public and settable in Swift. The methods accept any slot such a write could leave, with one exception: `value` on an `error` slot traps in the source and is excluded by a precondition.

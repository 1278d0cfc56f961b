/**
  Sequences of accesses to one lazy cell, and what they promise: the
  computation runs at most once per arming, the first outcome is handed out
  unchanged by every later access, a non-throwing cell never reaches the
  `error` state, a thrown error is cached and reported, and `reset()` arms
  the cell again.
 */
module LazyRuns {
  import opened LazyBox

  /** One call on a cell: an access (`value` or `tryValue()`) or a `reset()`. */
  datatype Step = Get | Reset

  /** The number of accesses in `steps`. */
  function Gets(steps: seq<Step>): nat
  {
    if steps == [] then 0 else (if steps[0] == Get then 1 else 0) + Gets(steps[1..])
  }

  /** The number of resets in `steps`. */
  function Resets(steps: seq<Step>): nat
  {
    if steps == [] then 0 else (if steps[0] == Reset then 1 else 0) + Resets(steps[1..])
  }

  /** A cell after a sequence of calls, and what its accesses gave back, in order. */
  datatype Run<V, C, E, R> = Run(after: Cell<V, C, E>, results: seq<R>)

  /**
    The calls `steps` on a non-throwing cell, each `Get` a `value` access and
    each `Reset` a `reset()` back to `original`. Whatever the calls, the cell
    never reaches the `error` state, so the trapping branch of `value` is
    never taken; and each access hands out one value.
   */
  function RunValue<V, E>(c: Cell<V, Computation<V>, E>, original: Computation<V>, steps: seq<Step>): (r: Run<V, Computation<V>, E, V>)
    requires !c.box.Error?
    ensures !r.after.box.Error?
    ensures |r.results| == Gets(steps)
    ensures r.after.invocations >= c.invocations
    decreases |steps|
  {
    if steps == [] then Run(c, [])
    else
      match steps[0]
      case Get =>
        var a := ValueOf(c);
        var rest := RunValue(a.after, original, steps[1..]);
        Run(rest.after, [a.result] + rest.results)
      case Reset =>
        RunValue(Rearm(c, original), original, steps[1..])
  }

  /** The calls `steps` on a throwing cell, each `Get` a `tryValue()` call. */
  function RunTryValue<V, E>(c: Cell<V, ThrowingComputation<V, E>, E>, original: ThrowingComputation<V, E>, steps: seq<Step>): (r: Run<V, ThrowingComputation<V, E>, E, Attempt<V, E>>)
    ensures |r.results| == Gets(steps)
    ensures r.after.invocations >= c.invocations
    decreases |steps|
  {
    if steps == [] then Run(c, [])
    else
      match steps[0]
      case Get =>
        var a := TryValueOf(c);
        var rest := RunTryValue(a.after, original, steps[1..]);
        Run(rest.after, [a.result] + rest.results)
      case Reset =>
        RunTryValue(Rearm(c, original), original, steps[1..])
  }

  lemma NoResetInTail(steps: seq<Step>)
    requires steps != [] && Reset !in steps
    ensures steps[0] == Get && Reset !in steps[1..]
  {
  }

  // ---------------------------------------------------------------- value

  /**
    Without resets the computation runs at most once: exactly once if the
    cell was armed and accessed at all, otherwise never.
   */
  lemma {:induction false} ValueAtMostOnce<V, E>(c: Cell<V, Computation<V>, E>, original: Computation<V>, steps: seq<Step>)
    requires !c.box.Error? && Reset !in steps
    ensures RunValue(c, original, steps).after.invocations
         == c.invocations + (if Armed(c) && steps != [] then 1 else 0)
    decreases |steps|
  {
    if steps != [] {
      NoResetInTail(steps);
      ValueAtMostOnce(ValueOf(c).after, original, steps[1..]);
    }
  }

  /**
    Without resets every access hands out the value the first access hands
    out (for a cached cell the cached value, for an armed one what its
    computation produced on that single invocation), even if the
    computation would produce something else when invoked again; and the
    cell keeps that value.
   */
  lemma {:induction false} ValueStable<V, E>(c: Cell<V, Computation<V>, E>, original: Computation<V>, steps: seq<Step>)
    requires !c.box.Error? && Reset !in steps
    ensures forall v <- RunValue(c, original, steps).results :: v == ValueOf(c).result
    ensures steps != [] ==> RunValue(c, original, steps).after.box == Computed(ValueOf(c).result)
    decreases |steps|
  {
    if steps != [] {
      NoResetInTail(steps);
      var a := ValueOf(c);
      ValueStable(a.after, original, steps[1..]);
      assert ValueOf(a.after).result == a.result;
    }
  }

  /**
    With resets the computation runs at most once per arming: once for the
    initial arming and once for each reset, and never more often than the
    cell is accessed.
   */
  lemma {:induction false} ValueInvocationsBound<V, E>(c: Cell<V, Computation<V>, E>, original: Computation<V>, steps: seq<Step>)
    requires !c.box.Error?
    ensures RunValue(c, original, steps).after.invocations
         <= c.invocations + (if Armed(c) then 1 else 0) + Resets(steps)
    ensures RunValue(c, original, steps).after.invocations <= c.invocations + Gets(steps)
    decreases |steps|
  {
    if steps != [] {
      match steps[0]
      case Get => ValueInvocationsBound(ValueOf(c).after, original, steps[1..]);
      case Reset => ValueInvocationsBound(Rearm(c, original), original, steps[1..]);
    }
  }

  /**
    Access, reset, access on a new cell: the computation runs twice, and the
    two accesses hand out its first and its second outcome.
   */
  lemma ValueResetValue<V, E>(block: Computation<V>)
    ensures RunValue(Fresh<V, Computation<V>, E>(block), block, [Get, Reset, Get])
         == Run(Cell(Computed(block(1)), 2), [block(0), block(1)])
  {
  }

  /** A reset before the first access changes nothing: the computation still runs once. */
  lemma ResetBeforeValue<V, E>(block: Computation<V>)
    ensures RunValue(Fresh<V, Computation<V>, E>(block), block, [Reset, Get])
         == RunValue(Fresh<V, Computation<V>, E>(block), block, [Get])
    ensures RunValue(Fresh<V, Computation<V>, E>(block), block, [Reset, Get]).after.invocations == 1
  {
  }

  // ------------------------------------------------------------- tryValue

  /** Without resets the computation runs at most once, whether it returns or throws. */
  lemma {:induction false} TryValueAtMostOnce<V, E>(c: Cell<V, ThrowingComputation<V, E>, E>, original: ThrowingComputation<V, E>, steps: seq<Step>)
    requires Reset !in steps
    ensures RunTryValue(c, original, steps).after.invocations
         == c.invocations + (if Armed(c) && steps != [] then 1 else 0)
    decreases |steps|
  {
    if steps != [] {
      NoResetInTail(steps);
      TryValueAtMostOnce(TryValueOf(c).after, original, steps[1..]);
    }
  }

  /**
    Without resets every `tryValue()` call gives the outcome of the first:
    the same value, or the same error thrown again; and the cell stays as
    the first call left it.
   */
  lemma {:induction false} TryValueStable<V, E>(c: Cell<V, ThrowingComputation<V, E>, E>, original: ThrowingComputation<V, E>, steps: seq<Step>)
    requires Reset !in steps
    ensures forall o <- RunTryValue(c, original, steps).results :: o == TryValueOf(c).result
    ensures steps != [] ==> RunTryValue(c, original, steps).after == TryValueOf(c).after
    decreases |steps|
  {
    if steps != [] {
      NoResetInTail(steps);
      var a := TryValueOf(c);
      TryValueStable(a.after, original, steps[1..]);
      assert TryValueOf(a.after).result == a.result;
    }
  }

  /**
    A cached error is never retried: every `tryValue()` call throws it again,
    unchanged, and the cell stays as it is without invoking anything.
   */
  lemma {:induction false} FailureCached<V, E>(e: E, n: nat, original: ThrowingComputation<V, E>, steps: seq<Step>)
    requires Reset !in steps
    ensures RunTryValue(Cell(Error(e), n), original, steps)
         == Run(Cell(Error(e), n), seq(Gets(steps), _ => Threw(e)))
    decreases |steps|
  {
    if steps != [] {
      NoResetInTail(steps);
      FailureCached(e, n, original, steps[1..]);
    }
  }

  /**
    After any calls ending in an access, the `error` accessor reports an
    error exactly when that last access threw it; after a final reset it
    reports none.
   */
  lemma {:induction false} ErrorReportsLastAccess<V, E>(c: Cell<V, ThrowingComputation<V, E>, E>, original: ThrowingComputation<V, E>, steps: seq<Step>)
    requires steps != []
    ensures steps[|steps| - 1] == Get ==> Gets(steps) > 0
    ensures var r := RunTryValue(c, original, steps);
      ErrorOf(r.after.box)
      == if steps[|steps| - 1] == Reset then None
         else match r.results[|r.results| - 1]
           case Threw(e) => Some(e)
           case Returned(_) => None
    decreases |steps|
  {
    if steps[|steps| - 1] == Get {
      GetsOfLast(steps);
    }
    var next := if steps[0] == Get then TryValueOf(c).after else Rearm(c, original);
    if |steps| > 1 {
      ErrorReportsLastAccess(next, original, steps[1..]);
    }
  }

  /** A sequence ending in an access contains one. */
  lemma {:induction false} GetsOfLast(steps: seq<Step>)
    requires steps != [] && steps[|steps| - 1] == Get
    ensures Gets(steps) > 0
    decreases |steps|
  {
    if steps[0] != Get {
      GetsOfLast(steps[1..]);
    }
  }

  /**
    With resets the computation runs at most once per arming, failures
    included, and never more often than the cell is accessed.
   */
  lemma {:induction false} TryValueInvocationsBound<V, E>(c: Cell<V, ThrowingComputation<V, E>, E>, original: ThrowingComputation<V, E>, steps: seq<Step>)
    ensures RunTryValue(c, original, steps).after.invocations
         <= c.invocations + (if Armed(c) then 1 else 0) + Resets(steps)
    ensures RunTryValue(c, original, steps).after.invocations <= c.invocations + Gets(steps)
    decreases |steps|
  {
    if steps != [] {
      match steps[0]
      case Get => TryValueInvocationsBound(TryValueOf(c).after, original, steps[1..]);
      case Reset => TryValueInvocationsBound(Rearm(c, original), original, steps[1..]);
    }
  }

  /**
    A reset after a failure retries: the next `tryValue()` invokes the
    original computation again and gives its new outcome.
   */
  lemma ResetRetriesFailure<V, E>(e: E, n: nat, original: ThrowingComputation<V, E>)
    ensures RunTryValue(Cell(Error(e), n), original, [Reset, Get]).results == [original(n)]
    ensures RunTryValue(Cell(Error(e), n), original, [Reset, Get]).after.invocations == n + 1
  {
  }

  // ------------------------------------------------------ runs split at a point

  /** Running `s + t` is running `s`, then running `t` on the cell `s` leaves. */
  lemma {:induction false} RunValueSplit<V, E>(c: Cell<V, Computation<V>, E>, original: Computation<V>, s: seq<Step>, t: seq<Step>)
    requires !c.box.Error?
    ensures var first := RunValue(c, original, s);
      var second := RunValue(first.after, original, t);
      RunValue(c, original, s + t) == Run(second.after, first.results + second.results)
    decreases |s|
  {
    if s == [] {
      assert s + t == t;
    } else {
      assert (s + t)[0] == s[0] && (s + t)[1..] == s[1..] + t;
      match s[0]
      case Get => RunValueSplit(ValueOf(c).after, original, s[1..], t);
      case Reset => RunValueSplit(Rearm(c, original), original, s[1..], t);
    }
  }

  /** The same for `tryValue()`. */
  lemma {:induction false} RunTryValueSplit<V, E>(c: Cell<V, ThrowingComputation<V, E>, E>, original: ThrowingComputation<V, E>, s: seq<Step>, t: seq<Step>)
    ensures var first := RunTryValue(c, original, s);
      var second := RunTryValue(first.after, original, t);
      RunTryValue(c, original, s + t) == Run(second.after, first.results + second.results)
    decreases |s|
  {
    if s == [] {
      assert s + t == t;
    } else {
      assert (s + t)[0] == s[0] && (s + t)[1..] == s[1..] + t;
      match s[0]
      case Get => RunTryValueSplit(TryValueOf(c).after, original, s[1..], t);
      case Reset => RunTryValueSplit(Rearm(c, original), original, s[1..], t);
    }
  }

  /**
    Exactly once per arming: whatever came before, a reset followed by
    accesses without a further reset invokes the original computation
    exactly once more, and every one of those accesses hands out what that
    invocation produced.
   */
  lemma ValueOncePerArming<V, E>(c: Cell<V, Computation<V>, E>, original: Computation<V>, s: seq<Step>, t: seq<Step>)
    requires !c.box.Error? && t != [] && Reset !in t
    ensures var before := RunValue(c, original, s);
      var whole := RunValue(c, original, s + [Reset] + t);
      whole.after.invocations == before.after.invocations + 1
      && whole.results == before.results + seq(|t|, _ => original(before.after.invocations))
  {
    var before := RunValue(c, original, s);
    var armed := Rearm(before.after, original);
    var rest := RunValue(armed, original, t);
    assert RunValue(before.after, original, [Reset] + t) == rest by {
      assert ([Reset] + t)[0] == Reset && ([Reset] + t)[1..] == t;
    }
    assert RunValue(c, original, s + [Reset] + t) == Run(rest.after, before.results + rest.results) by {
      assert s + [Reset] + t == s + ([Reset] + t);
      RunValueSplit(c, original, s, [Reset] + t);
    }
    ValueAtMostOnce(armed, original, t);
    assert rest.results == seq(|t|, _ => original(before.after.invocations)) by {
      ValueStable(armed, original, t);
      GetsWithoutReset(t);
      assert ValueOf(armed).result == original(before.after.invocations);
      forall i | 0 <= i < |t| ensures rest.results[i] == original(before.after.invocations) {
        assert rest.results[i] in rest.results;
      }
    }
  }

  /** The same for `tryValue()`: one more invocation, its outcome handed out by every access. */
  lemma TryValueOncePerArming<V, E>(c: Cell<V, ThrowingComputation<V, E>, E>, original: ThrowingComputation<V, E>, s: seq<Step>, t: seq<Step>)
    requires t != [] && Reset !in t
    ensures var before := RunTryValue(c, original, s);
      var whole := RunTryValue(c, original, s + [Reset] + t);
      whole.after.invocations == before.after.invocations + 1
      && whole.results == before.results + seq(|t|, _ => original(before.after.invocations))
  {
    var before := RunTryValue(c, original, s);
    var armed := Rearm(before.after, original);
    var rest := RunTryValue(armed, original, t);
    assert RunTryValue(before.after, original, [Reset] + t) == rest by {
      assert ([Reset] + t)[0] == Reset && ([Reset] + t)[1..] == t;
    }
    assert RunTryValue(c, original, s + [Reset] + t) == Run(rest.after, before.results + rest.results) by {
      assert s + [Reset] + t == s + ([Reset] + t);
      RunTryValueSplit(c, original, s, [Reset] + t);
    }
    TryValueAtMostOnce(armed, original, t);
    assert rest.results == seq(|t|, _ => original(before.after.invocations)) by {
      TryValueStable(armed, original, t);
      GetsWithoutReset(t);
      assert TryValueOf(armed).result == original(before.after.invocations);
      forall i | 0 <= i < |t| ensures rest.results[i] == original(before.after.invocations) {
        assert rest.results[i] in rest.results;
      }
    }
  }

  /** Without resets every step is an access. */
  lemma {:induction false} GetsWithoutReset(steps: seq<Step>)
    requires Reset !in steps
    ensures Gets(steps) == |steps|
    decreases |steps|
  {
    if steps != [] {
      NoResetInTail(steps);
      GetsWithoutReset(steps[1..]);
    }
  }
}

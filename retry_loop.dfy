/**
 * The body the `retry` attribute emits around a test function: a loop over
 * `i` in `0..count` that runs the original body once per pass inside a panic
 * boundary, returns as soon as a pass completes normally, re-raises the
 * panic of the pass with `i == count - 1`, and discards every other panic.
 */
module RetryLoop {

  /** How one execution of the original body ends: normally, or by a panic carrying `payload`. */
  datatype Outcome<+P> = Returned | Panicked(payload: P)

  /** How the wrapped test ends, and how many times it ran the original body. */
  datatype Report<+P> = Report(outcome: Outcome<P>, executions: nat)

  /**
   * The emitted loop from pass `i` on. `body(k)` is how the (k+1)-th
   * execution of the original body ends; it may depend on state the body
   * keeps between executions, which is why it is indexed by execution.
   */
  function RetryFrom<P>(count: int, body: nat -> Outcome<P>, i: nat): Report<P>
    decreases count - i
  {
    if i >= count then Report(Returned, i)
    else if body(i).Returned? then Report(Returned, i + 1)
    else if i == count - 1 then Report(body(i), i + 1)
    else RetryFrom(count, body, i + 1)
  }

  /** What the wrapped test does when the runner calls it once. */
  function Retry<P>(count: int, body: nat -> Outcome<P>): Report<P> {
    RetryFrom(count, body, 0)
  }

  /**
   * The emitted loop. `count` is the resolved i32 count; `count - 1` is only
   * evaluated when `count >= 1`, so it cannot overflow.
   */
  method RunRetried<P>(count: int, body: nat -> Outcome<P>) returns (outcome: Outcome<P>, executions: nat)
    ensures Report(outcome, executions) == Retry(count, body)
  {
    executions := 0;
    var i: nat := 0;
    while i < count
      invariant executions == i
      invariant RetryFrom(count, body, i) == Retry(count, body)
      decreases count - i
    {
      var result := body(executions);
      executions := executions + 1;
      if result.Returned? {
        return Returned, executions;
      }
      if i == count - 1 {
        return result, executions;
      }
      i := i + 1;
    }
    return Returned, executions;
  }

  // ---------------------------------------------------------------------
  // Properties of the retry policy
  // ---------------------------------------------------------------------

  /** Each of the first `k` executions panics. */
  ghost predicate FailsBefore<P>(body: nat -> Outcome<P>, k: nat) {
    forall j: nat :: j < k ==> body(j).Panicked?
  }

  lemma {:induction false} FirstSuccessFrom<P>(count: int, body: nat -> Outcome<P>, i: nat, k: nat)
    requires i <= k < count && body(k).Returned?
    requires forall j: nat :: i <= j < k ==> body(j).Panicked?
    ensures RetryFrom(count, body, i) == Report(Returned, k + 1)
    decreases k - i
  {
    if i < k {
      FirstSuccessFrom(count, body, i + 1, k);
    }
  }

  /**
   * If execution k+1 is the first to complete normally and k < count, the
   * wrapper returns normally after exactly k+1 executions and runs the body
   * no further.
   */
  lemma FirstSuccessStops<P>(count: int, body: nat -> Outcome<P>, k: nat)
    requires k < count && body(k).Returned? && FailsBefore(body, k)
    ensures Retry(count, body) == Report(Returned, k + 1)
  {
    FirstSuccessFrom(count, body, 0, k);
  }

  lemma {:induction false} AllFailFrom<P>(count: int, body: nat -> Outcome<P>, i: nat)
    requires i < count && FailsBefore(body, count)
    ensures RetryFrom(count, body, i) == Report(body(count - 1), count)
    decreases count - i
  {
    assert body(i).Panicked?;
    if i < count - 1 {
      AllFailFrom(count, body, i + 1);
    }
  }

  /**
   * If all `count` executions panic, the body runs exactly `count` times and
   * the wrapper panics with the last execution's payload, unchanged.
   */
  lemma AllAttemptsFail<P>(count: int, body: nat -> Outcome<P>)
    requires count >= 1 && FailsBefore(body, count)
    ensures Retry(count, body) == Report(body(count - 1), count)
  {
    AllFailFrom(count, body, 0);
  }

  lemma {:induction false} PanicsFromIff<P>(count: int, body: nat -> Outcome<P>, i: nat)
    requires forall j: nat :: j < i ==> body(j).Panicked?
    ensures RetryFrom(count, body, i).outcome.Panicked? <==> i < count && FailsBefore(body, count)
    ensures RetryFrom(count, body, i).outcome.Panicked? ==> RetryFrom(count, body, i).outcome == body(count - 1)
    decreases count - i
  {
    if i < count && body(i).Panicked? && i != count - 1 {
      PanicsFromIff(count, body, i + 1);
    }
  }

  /**
   * The wrapper panics if and only if `count >= 1` and every one of the
   * `count` executions panics; the panic it raises is then the last one.
   */
  lemma PanicsIff<P>(count: int, body: nat -> Outcome<P>)
    ensures Retry(count, body).outcome.Panicked? <==> count >= 1 && FailsBefore(body, count)
    ensures Retry(count, body).outcome.Panicked? ==> Retry(count, body).outcome == body(count - 1)
  {
    PanicsFromIff(count, body, 0);
  }

  lemma {:induction false} ExecutionsFromBounded<P>(count: int, body: nat -> Outcome<P>, i: nat)
    requires i < count
    ensures i < RetryFrom(count, body, i).executions <= count
    decreases count - i
  {
    if body(i).Panicked? && i != count - 1 {
      ExecutionsFromBounded(count, body, i + 1);
    }
  }

  /**
   * The body never runs more than `count` times, and runs at least once
   * whenever `count >= 1`.
   */
  lemma ExecutionsBounded<P>(count: int, body: nat -> Outcome<P>)
    ensures count <= 0 ==> Retry(count, body).executions == 0
    ensures count >= 1 ==> 1 <= Retry(count, body).executions <= count
  {
    if count >= 1 {
      ExecutionsFromBounded(count, body, 0);
    }
  }

  lemma {:induction false} OnlyExecutedMatterFrom<P>(count: int, b1: nat -> Outcome<P>, b2: nat -> Outcome<P>, i: nat)
    requires forall j: nat :: i <= j < RetryFrom(count, b1, i).executions ==> b1(j) == b2(j)
    ensures RetryFrom(count, b1, i) == RetryFrom(count, b2, i)
    decreases count - i
  {
    if i < count {
      ExecutionsFromBounded(count, b1, i);
      assert b1(i) == b2(i);
      if b1(i).Panicked? && i != count - 1 {
        OnlyExecutedMatterFrom(count, b1, b2, i + 1);
      }
    }
  }

  /**
   * How the body would behave on executions the wrapper does not perform
   * has no effect: two bodies that agree on the executions that happen give
   * the same report.
   */
  lemma OnlyExecutedAttemptsMatter<P>(count: int, b1: nat -> Outcome<P>, b2: nat -> Outcome<P>)
    requires forall j: nat :: j < Retry(count, b1).executions ==> b1(j) == b2(j)
    ensures Retry(count, b1) == Retry(count, b2)
  {
    OnlyExecutedMatterFrom(count, b1, b2, 0);
  }

  lemma {:induction false} EarlierFailuresDiscardedFrom<P>(count: int, b1: nat -> Outcome<P>, b2: nat -> Outcome<P>, i: nat)
    requires forall j: nat :: j < count - 1 ==> b1(j).Returned? == b2(j).Returned?
    requires count >= 1 ==> b1(count - 1) == b2(count - 1)
    ensures RetryFrom(count, b1, i) == RetryFrom(count, b2, i)
    decreases count - i
  {
    if i < count && b1(i).Panicked? && i != count - 1 {
      EarlierFailuresDiscardedFrom(count, b1, b2, i + 1);
    }
  }

  /**
   * The payloads of panics before the last pass are discarded: bodies that
   * complete or panic on the same executions, and agree on the last one,
   * give the same report whatever their earlier payloads.
   */
  lemma EarlierFailuresDiscarded<P>(count: int, b1: nat -> Outcome<P>, b2: nat -> Outcome<P>)
    requires forall j: nat :: j < count - 1 ==> b1(j).Returned? == b2(j).Returned?
    requires count >= 1 ==> b1(count - 1) == b2(count - 1)
    ensures Retry(count, b1) == Retry(count, b2)
  {
    EarlierFailuresDiscardedFrom(count, b1, b2, 0);
  }

  /** With `count = 1` there is no retry: one execution, whose panic is re-raised at once. */
  lemma SingleAttempt<P>(body: nat -> Outcome<P>)
    ensures Retry(1, body) == Report(body(0), 1)
  {
  }

  /** With `count <= 0` the loop never runs and the wrapper returns normally without executing the body. */
  lemma NonPositiveCountRunsNothing<P>(count: int, body: nat -> Outcome<P>)
    requires count <= 0
    ensures Retry(count, body) == Report(Returned, 0)
  {
  }

  /** A body that always completes normally runs exactly once, whatever the positive count. */
  lemma SucceedingBodyRunsOnce<P>(count: int, body: nat -> Outcome<P>)
    requires count >= 1 && body(0).Returned?
    ensures Retry(count, body) == Report(Returned, 1)
  {
  }
}

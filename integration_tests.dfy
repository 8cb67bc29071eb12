/**
 * The crate's integration tests, restated as facts about the model. Each
 * test body counts its executions in a static and panics while that count
 * is below a threshold; here that body is the function from the execution
 * index to its outcome.
 */
module IntegrationTests {
  import opened Wrappers
  import opened CountArgs
  import opened RetryLoop

  /** The panic messages the tests raise. */
  datatype Message = FailedOnAttempt(attempt: nat) | ShouldRunOnce | TestFailed

  /** The argument `count = n`. */
  function CountArg(n: int): NestedMeta {
    MetaArg(NameValue(Path(false, ["count"]), IntLit(n)))
  }

  /** A body that panics with "Test failed on attempt k" on its first `fails` executions and then completes. */
  function FailsFirst(fails: nat): nat -> Outcome<Message> {
    (k: nat) => if k < fails then Panicked(FailedOnAttempt(k + 1)) else Returned
  }

  /** `count = 5`, two failures: the third execution completes and the test passes. */
  lemma SucceedsWithEnoughRetries()
    ensures Resolve([CountArg(5)]) == Ok(5)
    ensures Retry(Resolve([CountArg(5)]).value, FailsFirst(2)) == Report(Returned, 3)
  {
    FirstSuccessStops(5, FailsFirst(2), 2);
  }

  /** `count = 2`, two failures: the test panics with the second execution's message. */
  lemma FailsWithInsufficientRetries()
    ensures Resolve([CountArg(2)]) == Ok(2)
    ensures Retry(Resolve([CountArg(2)]).value, FailsFirst(2)) == Report(Panicked(FailedOnAttempt(2)), 2)
  {
    AllAttemptsFail(2, FailsFirst(2));
  }

  /** `count = 3` and a body that completes at once: it runs exactly once. */
  lemma RunsOnlyOnceOnSuccess()
    ensures Resolve([CountArg(3)]) == Ok(3)
    ensures Retry(Resolve([CountArg(3)]).value, k => if k == 0 then Returned else Panicked(ShouldRunOnce)) == Report(Returned, 1)
  {
  }

  /** `count = 3` and a body that always panics: three executions, then the panic. */
  lemma FailsAfterAllRetries()
    ensures Resolve([CountArg(3)]) == Ok(3)
    ensures Retry(Resolve([CountArg(3)]).value, (k: nat) => Panicked(TestFailed)) == Report(Panicked(TestFailed), 3)
  {
    AllAttemptsFail(3, (k: nat) => Panicked(TestFailed));
  }

  /** No arguments, two failures: the default of three passes is enough. */
  lemma SucceedsWithDefaultRetries()
    ensures Resolve([]) == Ok(3)
    ensures Retry(Resolve([]).value, FailsFirst(2)) == Report(Returned, 3)
  {
    FirstSuccessStops(3, FailsFirst(2), 2);
  }

  /** No arguments, three failures: the test panics with the third execution's message. */
  lemma FailsWithDefaultRetries()
    ensures Resolve([]) == Ok(3)
    ensures Retry(Resolve([]).value, FailsFirst(3)) == Report(Panicked(FailedOnAttempt(3)), 3)
  {
    AllAttemptsFail(3, FailsFirst(3));
  }
}

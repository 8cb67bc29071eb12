# test_retry: a Dafny model of the `retry` attribute

`test_retry` provides one attribute macro, `retry`, for Rust test functions.
The macro re-runs a test up to `count` times until one run completes without
panicking. This project models the two pieces of logic in that macro and
proves what they do:

- **Count resolution** (module `CountArgs`, file `count_args.dfy`). The
  attribute's argument list is folded from left to right, starting from a
  count of 3. Each `count = <integer literal>` argument overwrites the count.
  Every other argument is skipped silently: another name, a bare path, a
  list, a bare literal, or `count` with a non-integer value. An integer
  literal that does not fit an `i32` aborts the expansion. Rust infers `i32`
  for the untyped `let mut count = 3`, and `base10_parse().unwrap()` panics
  on overflow. Arguments are modelled on the shapes of syn 1's
  `NestedMeta`/`Meta`/`Lit`. `ResolveCount` is the loop, and `Resolve` is
  the function it is proved against. `LastCountLiteral`, `FirstOverflow` and
  `AllCountsFit` are independent reference definitions that the
  characterization lemma connects to the fold.
- **The emitted retry loop** (module `RetryLoop`, file `retry_loop.dfy`).
  The generated body loops `i` over `0..count`. Each pass runs the original
  body once inside a panic boundary. If the body completes, the loop returns
  at once. If the body panics on the pass with `i == count - 1`, the loop
  re-raises that payload. Every other panic is discarded. The body's
  behaviour is a function `nat -> Outcome<P>`, where `body(k)` says how its
  (k+1)-th execution ends. That index stands in for whatever state the body
  keeps across runs, such as the tests' `AtomicUsize` statics.
  `RunRetried` is the loop. It returns the outcome and the number of
  executions, and is proved equal to the specification `Retry`.
- **The expansion** (module `RetryMacro`, file `retry_macro.dfy`) combines
  the two parts. `Expand` resolves the count and emits a function that keeps
  the original attributes, signature and block. `Run` gives that function's
  behaviour as the retry loop `Retry` over the resolved count.
- **The crate's integration tests** (module `IntegrationTests`, file
  `integration_tests.dfy`) are restated as lemmas about the model.

Two consequences of the code are worth stating plainly:

- A wrong argument name or a non-integer `count` is skipped without any
  diagnostic (`IgnoredArgument`, `NonIntegerCountIgnored`). The only
  build-time failure of the macro's own logic is an integer literal that
  overflows `i32`.
- 0 and negative literals are accepted (syn 1 parses `-n` as an integer
  literal). The loop then never runs, and the test passes without running
  its body (`NonPositiveCountRunsNothing`).

## Model

| member | source | states |
|---|---|---|
| `CountArgs.ResolveCount` | src/lib.rs:32-43 | The argument loop returns exactly what the left fold `Resolve` gives: the final count, or the parse error at which `unwrap` aborts. |
| `CountArgs.ResolveFromCharacterized` | src/lib.rs:35-43 | Starting from any count, the fold aborts if and only if some `count` integer literal does not fit an i32. It then reports the error of the first such literal. Otherwise it yields the last `count` literal, or the starting count when there is none. |
| `CountArgs.ResolveCharacterized` | src/lib.rs:32-43 | The same characterization from the default count of 3: abort iff some count literal overflows i32 (with the first one's error), else the last count literal or 3. |
| `CountArgs.ResolveFromInRange` | src/lib.rs:39 | A successful resolution always yields a count within the i32 range. |
| `CountArgs.NoCountArgumentGivesDefault` | src/lib.rs:33-43 | When no argument is `count = <integer literal>`, the resolved count is 3. |
| `CountArgs.EmptyArgumentsGiveDefault` | src/lib.rs:33 | With no arguments the count is 3. |
| `CountArgs.ResolveFromAppend` | src/lib.rs:35-43 | Folding over `xs + ys` is folding over `xs`, then continuing over `ys` from that result. An abort in `xs` is final. |
| `CountArgs.IgnoredArgument` | src/lib.rs:35-43 | An argument that is not `count = <integer literal>` can be removed from any position without changing the result. |
| `CountArgs.NonIntegerCountIgnored` | src/lib.rs:36-40 | `count = <non-integer literal>` is skipped silently, not rejected. |
| `CountArgs.LastCountWins` | src/lib.rs:35-41 | If the last `count = <integer literal>` is at position j with value n, and no count literal overflows, the count is n. |
| `RetryLoop.RunRetried` | src/lib.rs:54-63 | The emitted loop's outcome and number of body executions are exactly the report `Retry(count, body)`. |
| `RetryLoop.FirstSuccessStops` | src/lib.rs:54-58 | If execution k+1 (k < count) is the first to complete, the wrapper returns normally after exactly k+1 executions. |
| `RetryLoop.AllAttemptsFail` | src/lib.rs:54-63 | If all `count >= 1` executions panic, the body runs exactly `count` times. The wrapper then panics with the last execution's payload, unchanged. |
| `RetryLoop.PanicsIff` | src/lib.rs:54-63 | The wrapper panics iff `count >= 1` and every one of the `count` executions panics. The raised panic is then the last execution's. |
| `RetryLoop.ExecutionsBounded` | src/lib.rs:54-62 | For `count <= 0` the body never runs. Otherwise it runs at least once and at most `count` times. |
| `RetryLoop.OnlyExecutedAttemptsMatter` | src/lib.rs:54-58 | Two bodies that agree on the executions the wrapper performs give the same report. The body is never consulted after the wrapper returns. |
| `RetryLoop.EarlierFailuresDiscarded` | src/lib.rs:54-62 | Bodies that complete or panic on the same passes, and agree on the last pass, give the same report. The payloads of earlier panics never reach the result. |
| `RetryLoop.SingleAttempt` | src/lib.rs:54-63 | With `count = 1` the body runs once, and its outcome, panic included, is the wrapper's. |
| `RetryLoop.NonPositiveCountRunsNothing` | src/lib.rs:54 | With `count <= 0` the wrapper returns normally after zero executions. |
| `RetryLoop.SucceedingBodyRunsOnce` | src/lib.rs:54-58 | A body whose first execution completes runs exactly once, whatever the positive count. |
| `RetryMacro.Expand` | src/lib.rs:31-67 | The expansion fails iff some count literal overflows i32, with the first one's error. Otherwise the emitted function carries the original attributes, signature and block unchanged, with the last count literal (or 3) as its count, within i32. |
| `RetryMacro.DefaultArgumentsRetryThrice` | src/lib.rs:33-65 | With no `count = <integer literal>` argument, the count resolves to 3 and running the emitted function is the retry loop with three passes. |
| `IntegrationTests.SucceedsWithEnoughRetries` | tests/integration_tests.rs:4-12 | `count = 5` with two initial failures: the test passes after three executions. |
| `IntegrationTests.FailsWithInsufficientRetries` | tests/integration_tests.rs:14-23 | `count = 2` with two initial failures: the test panics with the second execution's message after two executions. |
| `IntegrationTests.RunsOnlyOnceOnSuccess` | tests/integration_tests.rs:25-31 | `count = 3` with a body that completes at once: exactly one execution. |
| `IntegrationTests.FailsAfterAllRetries` | tests/integration_tests.rs:33-38 | `count = 3` with a body that always panics: three executions, then that panic. |
| `IntegrationTests.SucceedsWithDefaultRetries` | tests/integration_tests.rs:40-48 | No arguments, two initial failures: the default of three passes suffices. |
| `IntegrationTests.FailsWithDefaultRetries` | tests/integration_tests.rs:50-59 | No arguments, three failures: the test panics with the third execution's message. |

## Left out

- Token handling is not modelled: `parse_macro_input!`, `AttributeArgs`, `ItemFn` parsing, `quote!` and the `TokenStream` conversions are foreign library calls. Arguments are a datatype, and the emitted code is modelled by its run-time meaning (`Retry`), not by the tokens it consists of.
- Syntax errors are not modelled. The argument list is parsed before the count loop (src/lib.rs:32), and the item only after it (src/lib.rs:45). So an overflowing count literal aborts the expansion before a malformed item is noticed. `Expand` takes an item that has already been parsed, and a syn error in the argument list itself is not modelled.
- The panic boundary (`catch_unwind` / `resume_unwind`) is abstracted as the `Outcome` value of each execution. The payload is an opaque type parameter, re-raised as the same value.
- The panic hook still prints the message of every caught panic to stderr. Earlier failures are dropped from the result but not silenced, and the model does not capture that output.
- A body that never returns hangs the wrapper. The body is a total function from execution index to outcome, so non-termination is not modelled.
- The tests' `AtomicUsize` statics are represented by indexing the body's outcome by execution number. Atomics and memory ordering are not modelled.
- Integer-literal type suffixes (`5u8`) are not modelled. The macro parses only the digits as an i32 and emits an `i32` literal, so the suffix does not affect behaviour.
- RetryLoop.RunRetried: the emitted `#count - 1` is i32 arithmetic. For a count of exactly `i32::MIN`, rustc's default overflow lint rejects the emitted code at compile time. The model treats that count like any other non-positive count, with zero executions. At run time `count - 1` is only evaluated when `count >= 1`, where it cannot overflow.
- The doc-comment example in src/lib.rs:20-28 is not modelled. It refers to an undefined `counter` and documents nothing beyond the default count.
- The test harness and `#[should_panic]` handling belong to the Rust test runner, not to this crate.

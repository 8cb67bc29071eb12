/**
 * The `retry` attribute as a whole: it resolves the count from its
 * arguments and emits a function with the original attributes, signature
 * and body, whose body is the retry loop of module RetryLoop.
 */
module RetryMacro {
  import opened Wrappers
  import opened CountArgs
  import opened RetryLoop

  /** A function item: its attributes, its signature and its body block, all opaque here. */
  datatype ItemFn<A, S, B> = ItemFn(attrs: seq<A>, sig: S, block: B)

  /** The emitted function: the original attributes, signature and block, run under a retry loop of `count` passes. */
  datatype WrappedFn<A, S, B> = WrappedFn(attrs: seq<A>, sig: S, count: int, block: B)

  /**
   * Expands `#[retry(args)]` on `item`. The expansion is aborted when a
   * `count` literal does not fit an i32; otherwise the count is that of the
   * last `count = <integer literal>` argument, or 3, and the item's
   * attributes, signature and block are carried over unchanged.
   */
  method Expand<A, S, B>(args: seq<NestedMeta>, item: ItemFn<A, S, B>) returns (r: Result<WrappedFn<A, S, B>, ParseIntError>)
    ensures r.Ok? <==> AllCountsFit(args)
    ensures r.Err? ==> FirstOverflow(args) == Some(r.error)
    ensures r.Ok? ==> r.value == WrappedFn(item.attrs, item.sig, LastCountLiteral(args).GetOr(DefaultCount), item.block)
    ensures r.Ok? ==> InI32(r.value.count)
  {
    var resolved := ResolveCount(args);
    ResolveCharacterized(args);
    ResolveFromInRange(DefaultCount, args);
    match resolved {
      case Err(e) =>
        r := Err(e);
      case Ok(count) =>
        r := Ok(WrappedFn(item.attrs, item.sig, count, item.block));
    }
  }

  /** What the emitted function does when the runner calls it, for a block that behaves as `body`. */
  function Run<A, S, B, P>(w: WrappedFn<A, S, B>, body: nat -> Outcome<P>): Report<P> {
    Retry(w.count, body)
  }

  /**
   * With no `count = <integer literal>` argument, the emitted function is
   * the retry loop with three passes, whatever the other arguments are.
   */
  lemma DefaultArgumentsRetryThrice<A, S, B, P>(args: seq<NestedMeta>, item: ItemFn<A, S, B>, body: nat -> Outcome<P>)
    requires forall i :: 0 <= i < |args| ==> CountLiteral(args[i]).None?
    ensures Resolve(args) == Ok(DefaultCount)
    ensures Run(WrappedFn(item.attrs, item.sig, Resolve(args).value, item.block), body) == Retry(3, body)
  {
    NoCountArgumentGivesDefault(args);
  }
}

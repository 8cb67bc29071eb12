/**
 * Resolution of the `count` argument of the `retry` attribute: the
 * attribute's argument list is folded from left to right, starting from a
 * count of 3; every `count = <integer literal>` overwrites the count, every
 * other argument is skipped, and a literal that does not fit the count's
 * type (Rust's default integer type, i32) aborts the expansion.
 */
module CountArgs {
  import opened Wrappers

  /** The count used when no usable `count` argument is given. */
  const DefaultCount: int := 3

  const I32Min: int := -0x8000_0000
  const I32Max: int := 0x7FFF_FFFF

  predicate InI32(n: int) {
    I32Min <= n <= I32Max
  }

  /**
   * A literal in an attribute argument. Only integer literals matter to the
   * macro; their type suffix (if any) is ignored, so only the value is kept.
   * Float, bool, char, byte and byte-string literals are `OtherLit`.
   */
  datatype Lit = IntLit(value: int) | StrLit(text: string) | OtherLit

  /** A path such as `count` or `::a::b`. */
  datatype Path = Path(leadingColon: bool, segments: seq<string>)

  /** The three forms an attribute meta item can take. */
  datatype Meta =
    | PathMeta(path: Path)
    | ListMeta(path: Path, nested: seq<NestedMeta>)
    | NameValue(path: Path, lit: Lit)

  /** One element of the attribute's comma-separated argument list. */
  datatype NestedMeta = MetaArg(meta: Meta) | LitArg(lit: Lit)

  /** Why parsing a literal as an i32 failed. */
  datatype ParseIntError = PosOverflow | NegOverflow

  /** A path that is exactly the single identifier `ident`. */
  predicate IsIdent(p: Path, ident: string) {
    !p.leadingColon && p.segments == [ident]
  }

  /** The value written in `arg` when `arg` has the shape `count = <integer literal>`. */
  function CountLiteral(arg: NestedMeta): Option<int> {
    match arg
    case MetaArg(NameValue(path, IntLit(n))) => if IsIdent(path, "count") then Some(n) else None
    case _ => None
  }

  /** Parsing an integer literal's digits as an i32. */
  function ParseI32(n: int): Result<int, ParseIntError> {
    if n > I32Max then Err(PosOverflow)
    else if n < I32Min then Err(NegOverflow)
    else Ok(n)
  }

  /** One pass of the argument loop: the count after `arg`, or the abort. */
  function Step(count: int, arg: NestedMeta): Result<int, ParseIntError> {
    match CountLiteral(arg)
    case None => Ok(count)
    case Some(n) => ParseI32(n)
  }

  /** The argument loop, as a left fold over `args` from `count`. */
  function ResolveFrom(count: int, args: seq<NestedMeta>): Result<int, ParseIntError>
    decreases |args|
  {
    if args == [] then Ok(count)
    else
      match Step(count, args[0])
      case Err(e) => Err(e)
      case Ok(c) => ResolveFrom(c, args[1..])
  }

  /** The count the expansion uses for the argument list `args`, or the abort. */
  function Resolve(args: seq<NestedMeta>): Result<int, ParseIntError> {
    ResolveFrom(DefaultCount, args)
  }

  /** The argument loop of the macro, with its early abort on an unparsable literal. */
  method ResolveCount(args: seq<NestedMeta>) returns (r: Result<int, ParseIntError>)
    ensures r == Resolve(args)
  {
    var count := DefaultCount;
    var i := 0;
    while i < |args|
      invariant 0 <= i <= |args|
      invariant ResolveFrom(count, args[i..]) == Resolve(args)
    {
      assert args[i..][1..] == args[i + 1..];
      match args[i] {
        case MetaArg(NameValue(path, IntLit(n))) =>
          if IsIdent(path, "count") {
            var parsed := ParseI32(n);
            if parsed.Err? {
              return Err(parsed.error);
            }
            count := parsed.value;
          }
        case _ =>
      }
      i := i + 1;
    }
    return Ok(count);
  }

  // ---------------------------------------------------------------------
  // Reference definitions, independent of the loop's state passing
  // ---------------------------------------------------------------------

  /** Every `count = <integer literal>` in `args` fits an i32. */
  ghost predicate AllCountsFit(args: seq<NestedMeta>) {
    forall i :: 0 <= i < |args| && CountLiteral(args[i]).Some? ==> InI32(CountLiteral(args[i]).value)
  }

  /** The value of the last `count = <integer literal>` in `args`, if there is one. */
  function LastCountLiteral(args: seq<NestedMeta>): Option<int> {
    if args == [] then None
    else
      match LastCountLiteral(args[1..])
      case Some(n) => Some(n)
      case None => CountLiteral(args[0])
  }

  /** The error for the first `count = <integer literal>` in `args` that does not fit an i32. */
  function FirstOverflow(args: seq<NestedMeta>): Option<ParseIntError> {
    if args == [] then None
    else
      match CountLiteral(args[0])
      case Some(n) =>
        if n > I32Max then Some(PosOverflow)
        else if n < I32Min then Some(NegOverflow)
        else FirstOverflow(args[1..])
      case None => FirstOverflow(args[1..])
  }

  // ---------------------------------------------------------------------
  // Properties of the resolution
  // ---------------------------------------------------------------------

  /**
   * The fold is fully described by the reference definitions: it aborts
   * exactly when some count literal does not fit an i32, with the error of
   * the first one, and otherwise yields the last count literal, or the
   * starting count when there is none.
   */
  lemma {:induction false} ResolveFromCharacterized(count: int, args: seq<NestedMeta>)
    ensures ResolveFrom(count, args).Err? <==> !AllCountsFit(args)
    ensures ResolveFrom(count, args).Err? ==> FirstOverflow(args) == Some(ResolveFrom(count, args).error)
    ensures ResolveFrom(count, args).Ok? ==> ResolveFrom(count, args).value == LastCountLiteral(args).GetOr(count)
    decreases |args|
  {
    if args != [] {
      var rest := args[1..];
      assert AllCountsFit(args) <==> (CountLiteral(args[0]).Some? ==> InI32(CountLiteral(args[0]).value)) && AllCountsFit(rest) by {
        if AllCountsFit(args) {
          forall i | 0 <= i < |rest| && CountLiteral(rest[i]).Some?
            ensures InI32(CountLiteral(rest[i]).value)
          {
            assert rest[i] == args[i + 1];
          }
        }
        if (CountLiteral(args[0]).Some? ==> InI32(CountLiteral(args[0]).value)) && AllCountsFit(rest) {
          forall i | 0 <= i < |args| && CountLiteral(args[i]).Some?
            ensures InI32(CountLiteral(args[i]).value)
          {
            if i > 0 {
              assert args[i] == rest[i - 1];
            }
          }
        }
      }
      match Step(count, args[0])
      case Err(e) =>
      case Ok(c) =>
        ResolveFromCharacterized(c, rest);
    }
  }

  /** Both directions of the abort condition, and the value of a successful resolution. */
  lemma ResolveCharacterized(args: seq<NestedMeta>)
    ensures Resolve(args).Err? <==> !AllCountsFit(args)
    ensures Resolve(args).Err? ==> FirstOverflow(args) == Some(Resolve(args).error)
    ensures Resolve(args).Ok? ==> Resolve(args).value == LastCountLiteral(args).GetOr(DefaultCount)
  {
    ResolveFromCharacterized(DefaultCount, args);
  }

  /** A successful resolution always yields a count that fits an i32. */
  lemma {:induction false} ResolveFromInRange(count: int, args: seq<NestedMeta>)
    requires InI32(count)
    ensures ResolveFrom(count, args).Ok? ==> InI32(ResolveFrom(count, args).value)
    decreases |args|
  {
    if args != [] {
      match Step(count, args[0])
      case Err(_) =>
      case Ok(c) => ResolveFromInRange(c, args[1..]);
    }
  }

  /** Without any `count = <integer literal>` argument the count stays at its default of 3. */
  lemma {:induction false} NoCountArgumentGivesDefault(args: seq<NestedMeta>)
    requires forall i :: 0 <= i < |args| ==> CountLiteral(args[i]).None?
    ensures Resolve(args) == Ok(DefaultCount)
  {
    NoCountLiteralIsNone(args);
    ResolveCharacterized(args);
  }

  lemma {:induction false} NoCountLiteralIsNone(args: seq<NestedMeta>)
    requires forall i :: 0 <= i < |args| ==> CountLiteral(args[i]).None?
    ensures LastCountLiteral(args) == None && AllCountsFit(args)
    decreases |args|
  {
    if args != [] {
      assert forall i :: 0 <= i < |args| - 1 ==> args[1..][i] == args[i + 1];
      NoCountLiteralIsNone(args[1..]);
    }
  }

  /** The fold over a concatenation is the fold over the second part from the first part's result. */
  lemma {:induction false} ResolveFromAppend(count: int, xs: seq<NestedMeta>, ys: seq<NestedMeta>)
    ensures ResolveFrom(count, xs + ys) ==
      match ResolveFrom(count, xs)
      case Err(e) => Err(e)
      case Ok(c) => ResolveFrom(c, ys)
    decreases |xs|
  {
    if xs != [] {
      assert (xs + ys)[0] == xs[0];
      assert (xs + ys)[1..] == xs[1..] + ys;
      match Step(count, xs[0])
      case Err(_) =>
      case Ok(c) => ResolveFromAppend(c, xs[1..], ys);
    } else {
      assert xs + ys == ys;
    }
  }

  /**
   * An argument that is not `count = <integer literal>` (another name, a
   * bare path, a list, a bare literal, or `count` with a non-integer value)
   * can be removed from anywhere in the list without changing the result.
   */
  lemma IgnoredArgument(xs: seq<NestedMeta>, a: NestedMeta, ys: seq<NestedMeta>)
    requires CountLiteral(a).None?
    ensures Resolve(xs + [a] + ys) == Resolve(xs + ys)
  {
    ResolveFromAppend(DefaultCount, xs + [a], ys);
    ResolveFromAppend(DefaultCount, xs, [a]);
    ResolveFromAppend(DefaultCount, xs, ys);
    match ResolveFrom(DefaultCount, xs)
    case Err(_) =>
    case Ok(c) =>
      assert [a][1..] == [];
  }

  /** In particular `count = "3"`, `count = 3.0` or `count = true` is silently skipped, not rejected. */
  lemma NonIntegerCountIgnored(xs: seq<NestedMeta>, lit: Lit, ys: seq<NestedMeta>)
    requires !lit.IntLit?
    ensures Resolve(xs + [MetaArg(NameValue(Path(false, ["count"]), lit))] + ys) == Resolve(xs + ys)
  {
    IgnoredArgument(xs, MetaArg(NameValue(Path(false, ["count"]), lit)), ys);
  }

  /** With no arguments at all the count is 3. */
  lemma EmptyArgumentsGiveDefault()
    ensures Resolve([]) == Ok(3)
  {
  }

  /** Among several usable `count = n` arguments, the last one decides the count. */
  lemma {:induction false} LastCountWins(args: seq<NestedMeta>, j: int, n: int)
    requires 0 <= j < |args| && CountLiteral(args[j]) == Some(n)
    requires forall k :: j < k < |args| ==> CountLiteral(args[k]).None?
    requires AllCountsFit(args)
    ensures Resolve(args) == Ok(n)
  {
    LastLiteralAt(args, j, n);
    ResolveCharacterized(args);
  }

  lemma {:induction false} LastLiteralAt(args: seq<NestedMeta>, j: int, n: int)
    requires 0 <= j < |args| && CountLiteral(args[j]) == Some(n)
    requires forall k :: j < k < |args| ==> CountLiteral(args[k]).None?
    ensures LastCountLiteral(args) == Some(n)
    decreases |args|
  {
    var rest := args[1..];
    if j == 0 {
      NoCountLiteralIsNone(rest);
    } else {
      assert rest[j - 1] == args[j];
      LastLiteralAt(rest, j - 1, n);
    }
  }
}

/** Which expressions compile: the columns, the literals and the calls that are accepted. */
module SqlCompiles {
  import opened Basics
  import opened SqlNumbers
  import opened SqlTokens
  import opened SqlSyntax
  import opened SqlEmit
  import opened SqlMeaning
  import opened SqlMeaningProof
  import opened SqlBorders
  import SqlText
  import SqlPrecedence

  /** The columns of a dataset: twenty blobs, twenty doubles, and four by name. */
  ghost predicate Column(name: string) {
    || name == "index1" || name == "_sample_interval" || name == "timestamp" || name == "dataset"
    || Numbered(name, "blob") || Numbered(name, "double")
  }

  lemma ShortNumbers(n: nat)
    requires n <= 20
    ensures NatText(n) == if n < 10 then [DigitChar(n)] else [DigitChar(n / 10), DigitChar(n % 10)]
  {
  }

  lemma IndexIs(s: string)
    ensures IsColumnIndex(s) <==> exists n: nat :: 1 <= n <= 20 && s == NatText(n)
  {
    if IsColumnIndex(s) {
      var n: nat := if |s| == 1 then (s[0] - '0') as nat else 10 * (s[0] - '0') as nat + (s[1] - '0') as nat;
      ShortNumbers(n);
      assert s == NatText(n);
    }
    if n: nat :| 1 <= n <= 20 && s == NatText(n) {
      ShortNumbers(n);
    }
  }

  ghost predicate Numbered(name: string, p: string) {
    exists n: nat :: 1 <= n <= 20 && name == p + NatText(n)
  }

  lemma NumberedIs(name: string, p: string)
    ensures HasPrefix(name, p) && IsColumnIndex(name[|p|..]) <==> Numbered(name, p)
  {
    if HasPrefix(name, p) && IsColumnIndex(name[|p|..]) {
      IndexIs(name[|p|..]);
      assert name == p + name[|p|..];
    }
    if n: nat :| 1 <= n <= 20 && name == p + NatText(n) {
      IndexIs(NatText(n));
      assert name[|p|..] == NatText(n);
    }
  }

  lemma ColumnIs(name: string)
    ensures IsColumn(name) <==> Column(name)
  {
    NumberedIs(name, "blob");
    NumberedIs(name, "double");
  }

  /** Every column name is one word to the tokenizer. */
  lemma ColumnsAreWords(name: string)
    requires IsColumn(name)
    ensures SqlText.Wordy(name)
  {
    var from := if HasPrefix(name, "blob") then 4 else 6;
    if HasPrefix(name, "blob") || HasPrefix(name, "double") {
      assert forall i :: from <= i < |name| ==> name[i] == name[from..][i - from];
    }
  }

  /** A function is known by its name in any case. */
  lemma NamesInAnyCase(s: string, t: string)
    requires SqlPrecedence.SameLetters(s, t)
    ensures ToLower(s) == ToLower(t) && FnOf(s) == FnOf(t) && CallOf(s) == CallOf(t)
  {
    assert |ToLower(s)| == |ToLower(t)| && forall i :: 0 <= i < |s| ==> ToLower(s)[i] == ToLower(t)[i];
  }

  /** A string where a DateTime is expected has to be a date literal. */
  predicate Readable(e: Node, time: bool, ctx: Ctx) {
    e.Str? && time ==> ctx.dates(e.text).Some?
  }

  /** What a call of a date function may have behind its own arguments: zones, all of them UTC. */
  ghost predicate Zoned(call: Call, args: seq<Node>) {
    forall i :: (if call.EveryInterval? || call.EveryWeek? then 2 else 1) <= i < |args| ==>
        args[i].Str? && UtcName(args[i].text)
  }

  ghost predicate Callable(call: Call, args: seq<Node>, ctx: Ctx) {
    && call.Counts(|args|)
    && (call.OfInstant() ==>
          && Readable(args[0], true, ctx) && Zoned(call, args)
          && (call.EveryInterval? ==> args[1].Interval?)
          && (call.EveryWeek? ==> FirstDay(args).Some?))
  }

  ghost predicate Compiles(e: Node, ctx: Ctx) {
    match e
    case Num(_) => true
    case Str(_) => true
    case Star => true
    case Interval(_) => true
    case Col(name) => Column(name) || name in ctx.aliases
    case Neg(x) => Compiles(x, ctx)
    case Not(x) => Compiles(x, ctx)
    case Binary(op, l, r) =>
      && Compiles(l, ctx) && Compiles(r, ctx)
      && (op.IsCompare() ==> Readable(l, InferType(r).IsTime(), ctx) && Readable(r, InferType(l).IsTime(), ctx))
    case In(x, list, _) =>
      && Compiles(x, ctx)
      && forall i :: 0 <= i < |list| ==> Compiles(list[i], ctx) && Readable(list[i], InferType(x).IsTime(), ctx)
    case Like(x, p, _) => Compiles(x, ctx) && Compiles(p, ctx)
    case Between(x, low, high, _) =>
      && Compiles(x, ctx) && Compiles(low, ctx) && Compiles(high, ctx)
      && Readable(low, InferType(x).IsTime(), ctx) && Readable(high, InferType(x).IsTime(), ctx)
    case IsNull(x, _) => Compiles(x, ctx)
    case Func(name, args, _, _) =>
      && (forall i :: 0 <= i < |args| ==> Compiles(args[i], ctx))
      && CallOf(name).Some? && Callable(CallOf(name).value, args, ctx)
  }

  lemma CallIs(name: string, args: seq<Node>, a: seq<Sq>, ctx: Ctx)
    requires |a| == |args| && Arity(FnOf(name), |args|)
    ensures EmitFn(FnOf(name), name, args, a, ctx).Success? <==>
            CallOf(name).Some? && Callable(CallOf(name).value, args, ctx)
  {
    var fn, call := FnOf(name), CallOf(name);
    NameStands(name);
    if call.Some? && TakesTime(fn) {
      ZonesAre(fn, call.value, args);
      FirstDayIs(args);
    }
  }

  lemma ZonesAre(fn: Fn, call: Call, args: seq<Node>)
    requires Stands(fn, Some(call)) && TakesTime(fn)
    ensures ZonesOk(fn, args) <==> Zoned(call, args)
  {
    var from := if call.EveryInterval? || call.EveryWeek? then 2 else 1;
    forall i | from <= i < |args| && args[i].Str? ensures IsUtc(args[i].text) <==> UtcName(args[i].text) {
      UtcIs(args[i].text);
    }
  }

  /** An expression compiles exactly when its columns are known or aliased, its strings are date literals where a
      DateTime is expected, and its calls are of known functions with arguments they take. */
  lemma {:induction false} EmitsIff(e: Node, ctx: Ctx)
    ensures Emit(e, ctx).Success? <==> Compiles(e, ctx)
    decreases e, 1
  {
    match e
    case Col(name) => ColumnIs(name);
    case Neg(x) => EmitsIff(x, ctx);
    case Not(x) => EmitsIff(x, ctx);
    case Binary(_, l, r) =>
      EmitsIff(l, ctx);
      EmitsIff(r, ctx);
    case In(x, list, _) =>
      EmitsIff(x, ctx);
      ListEmitsIff(list, x, ctx);
    case Like(x, p, _) =>
      EmitsIff(x, ctx);
      EmitsIff(p, ctx);
    case Between(x, low, high, _) =>
      EmitsIff(x, ctx);
      EmitsIff(low, ctx);
      EmitsIff(high, ctx);
    case IsNull(x, _) => EmitsIff(x, ctx);
    case Func(name, args, _, _) => CallEmitsIff(e, ctx);
    case _ =>
  }

  lemma {:induction false} CallEmitsIff(e: Node, ctx: Ctx)
    requires e.Func?
    ensures Emit(e, ctx).Success? <==> Compiles(e, ctx)
    decreases e, 0
  {
    NameStands(e.name);
    ArgsEmitIff(e.args, ctx);
    if Arity(FnOf(e.name), |e.args|) && EmitArgs(e.args, ctx).Success? {
      CallIs(e.name, e.args, EmitArgs(e.args, ctx).value, ctx);
    }
  }

  lemma {:induction false} ListEmitsIff(list: seq<Node>, x: Node, ctx: Ctx)
    ensures EmitList(list, x, ctx).Success? <==>
            forall i :: 0 <= i < |list| ==> Compiles(list[i], ctx) && Readable(list[i], InferType(x).IsTime(), ctx)
    decreases list
  {
    if list != [] {
      EmitsIff(list[0], ctx);
      ListEmitsIff(list[1..], x, ctx);
      assert forall i :: 0 < i < |list| ==> list[i] == list[1..][i - 1];
    }
  }

  lemma {:induction false} ArgsEmitIff(list: seq<Node>, ctx: Ctx)
    ensures EmitArgs(list, ctx).Success? <==> forall i :: 0 <= i < |list| ==> Compiles(list[i], ctx)
    decreases list
  {
    if list != [] {
      EmitsIff(list[0], ctx);
      ArgsEmitIff(list[1..], ctx);
      assert forall i :: 0 < i < |list| ==> list[i] == list[1..][i - 1];
    }
  }
}

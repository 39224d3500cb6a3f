/** A printer that places parentheses by the precedence table, and its inverse law with the parser. */
module SqlPrinter {
  import opened Basics
  import opened SqlNumbers
  import opened SqlTokens
  import opened SqlSyntax
  import opened SqlGrammar
  import opened SqlParserComplete

  function KwSpelling(w: Word): string {
    match w
    case IN => "IN"
    case LIKE => "LIKE"
    case BETWEEN => "BETWEEN"
    case IS => "IS"
    case NOT => "NOT"
    case NULL => "NULL"
    case AND => "AND"
    case OR => "OR"
    case INTERVAL => "INTERVAL"
    case DISTINCT => "DISTINCT"
    case _ => "SECOND"
  }

  function KwToken(w: Word): (t: Token)
    ensures t.IsWord(w) && t.mark.NoMark?
  {
    RawToken(IdentTok, KwSpelling(w), NoMark, w)
  }

  function InfixToken(op: BinOp): (t: Token)
    ensures InfixOp(t) == Some(op) && t.mark.NoMark?
  {
    if op.And? then KwToken(AND) else if op.Or? then KwToken(OR) else OpToken(op)
  }

  const OPEN: Token := RawToken(PunctTok, "(", LParen, Plain)
  const CLOSE: Token := RawToken(PunctTok, ")", RParen, Plain)
  const COMMA: Token := RawToken(PunctTok, ",", Comma, Plain)

  function NotTokens(negate: bool): (no: seq<Token>)
    ensures NoToks(no) && (no != []) == negate
  {
    if negate then [KwToken(NOT)] else []
  }

  /** A name the parser cannot read back as a name, quoted or not. */
  predicate Reserved(name: string) {
    var t := MakeToken(IdentTok, name);
    t.upper.NOT? || t.upper.INTERVAL? || t.mark.LParen?
  }

  /** The trees the parser can produce, keyword-named columns apart. */
  predicate Printable(e: Node) {
    match e
    case Num(d) => d.Normal() && d.mantissa >= 0
    case Str(_) => true
    case Col(name) => !Reserved(name)
    case Star => true
    case Func(name, args, params, distinct) =>
      && !Reserved(name) && (forall a :: a in args ==> Printable(a))
      && (params.WithParams? ==> !distinct && forall a :: a in params.list ==> Printable(a))
    case Interval(d) => d.Normal()
    case Binary(_, l, r) => Printable(l) && Printable(r)
    case Neg(x) => Printable(x)
    case Not(x) => Printable(x)
    case In(x, list, _) => Printable(x) && forall a :: a in list ==> Printable(a)
    case Like(x, pat, _) => Printable(x) && Printable(pat)
    case Between(x, low, high, _) => Printable(x) && Printable(low) && Printable(high)
    case IsNull(x, _) => Printable(x)
  }

  /** NOT sits between AND and the comparisons; the predicates sit with the comparisons. */
  function Level(e: Node): nat {
    match e
    case Binary(op, _, _) => op.Prec()
    case In(_, _, _) | Like(_, _, _) | Between(_, _, _, _) | IsNull(_, _) => 3
    case Not(_) => 2
    case _ => 9
  }

  function Unparse(e: Node, p: nat): Syn
    decreases e, 1
  {
    if Level(e) < p then SParen(OPEN, Bare(e), CLOSE) else Bare(e)
  }

  function Bare(e: Node): Syn
    decreases e, 0
  {
    match e
    case Num(d) => SNum(NumToken(if d.mantissa >= 0 then DecimalText(d) else ""))
    case Str(text) => SStr(MakeToken(StrTok, text))
    case Col(name) => SCol(MakeToken(IdentTok, name))
    case Star => SStar(OpToken(Mul))
    case Func(name, args, params, distinct) =>
      var last := UnparseList(args, if distinct then [KwToken(DISTINCT)] else []);
      if params.NoParams? then SCall(MakeToken(IdentTok, name), last)
      else SParamCall(MakeToken(IdentTok, name), UnparseList(params.list, []), last)
    case Interval(d) => SInterval(KwToken(INTERVAL), MakeToken(StrTok, SignedText(d)), KwToken(Unit(1)))
    case Binary(op, l, r) => SBin(Unparse(l, op.Prec()), InfixToken(op), Unparse(r, op.Prec() + 1))
    case Neg(x) => SNeg(OpToken(Sub), Unparse(x, 9))
    case Not(x) => SNot(KwToken(NOT), Unparse(x, 3))
    case In(x, list, negate) => SIn(Unparse(x, 3), NotTokens(negate), KwToken(IN), UnparseList(list, []))
    case Like(x, pat, negate) => SLike(Unparse(x, 3), NotTokens(negate), KwToken(LIKE), Unparse(pat, 4))
    case Between(x, low, high, negate) =>
      SBetween(Unparse(x, 3), NotTokens(negate), KwToken(BETWEEN), Unparse(low, 4), KwToken(AND), Unparse(high, 4))
    case IsNull(x, negate) => SIsNull(Unparse(x, 3), KwToken(IS), NotTokens(negate), KwToken(NULL))
  }

  function UnparseList(list: seq<Node>, distinct: seq<Token>): SArgs
    decreases list, 3
  {
    var items := if list == [] then SNone else SMore([], Guarded(Unparse(list[0], 0)), UnparseTail(list[1..]));
    SArgs(OPEN, distinct, items, CLOSE)
  }

  /** A first item whose first token reads as the closer, or as DISTINCT, is parenthesised. */
  function Guarded(s: Syn): Syn {
    if First(s).mark.RParen? || First(s).IsWord(DISTINCT) then SParen(OPEN, s, CLOSE) else s
  }

  function UnparseTail(list: seq<Node>): SItems
    decreases list, 2
  {
    if list == [] then SNone else SMore([COMMA], Unparse(list[0], 0), UnparseTail(list[1..]))
  }

  /** What the printer owes the parser: a well-formed tree for `e` that closes above level `p`. */
  predicate Prints(s: Syn, e: Node, p: nat) {
    WF(s) && Fits(s, p) && Strip(s) == e && (p <= 6 ==> Trail(s) > p)
  }

  lemma {:induction false} FitsBelow(s: Syn, p: nat, q: nat)
    requires p <= q && Fits(s, q)
    ensures Fits(s, p)
    decreases s
  {
    match s
    case SBin(l, _, _) => FitsBelow(l, p, q);
    case SIn(l, _, _, _) => FitsBelow(l, p, q);
    case SLike(l, _, _, _) => FitsBelow(l, p, q);
    case SBetween(l, _, _, _, _, _) => FitsBelow(l, p, q);
    case SIsNull(l, _, _, _) => FitsBelow(l, p, q);
    case _ =>
  }

  lemma {:induction false} UnparsePrints(e: Node, p: nat)
    requires Printable(e)
    ensures Prints(Unparse(e, p), e, p)
    ensures p == 9 ==> IsUnary(Unparse(e, p)) && FitsUnary(Unparse(e, p))
    decreases e, 2
  {
    if Level(e) < p {
      BarePrints(e, 0);
    } else {
      BarePrints(e, p);
    }
  }

  lemma {:induction false} BarePrints(e: Node, p: nat)
    requires Printable(e) && p <= Level(e)
    ensures Prints(Bare(e), e, p)
    ensures Level(e) == 9 ==> IsUnary(Bare(e)) && FitsUnary(Bare(e))
    decreases e, 1
  {
    match e
    case Binary(op, l, r) =>
      UnparsePrints(l, op.Prec());
      UnparsePrints(r, op.Prec() + 1);
      BinaryTree(Bare(e), l, r, op, p);
    case Neg(x) =>
      UnparsePrints(x, 9);
      NegTree(x, Unparse(x, 9), p);
    case Not(x) =>
      UnparsePrints(x, 3);
      NotTree(x, Unparse(x, 3), p);
    case In(x, list, negate) =>
      UnparsePrints(x, 3);
      ListPrints(list, []);
      InTree(Bare(e), x, list, p);
    case Like(x, pat, negate) =>
      UnparsePrints(x, 3);
      UnparsePrints(pat, 4);
      LikeTree(Bare(e), x, pat, p);
    case Between(x, low, high, negate) =>
      UnparsePrints(x, 3);
      UnparsePrints(low, 4);
      UnparsePrints(high, 4);
      BetweenTree(Bare(e), x, low, high, p);
    case IsNull(x, negate) =>
      UnparsePrints(x, 3);
      IsNullTree(Bare(e), x, p);
    case Func(_, _, _, _) => FuncPrints(e);
    case _ => LeafPrints(e, p);
  }

  lemma LeafPrints(e: Node, p: nat)
    requires e.Num? || e.Str? || e.Col? || e.Star? || e.Interval?
    requires Printable(e)
    ensures Prints(Bare(e), e, p) && IsUnary(Bare(e)) && FitsUnary(Bare(e))
  {
    if e.Interval? {
      SignedRoundTrip(e.seconds);
      IntervalTree(Bare(e), e.seconds, p);
    } else {
      if e.Num? {
        DecimalRoundTrip(e.value);
      }
      AtomTree(Bare(e), e, p);
    }
  }

  lemma AtomTree(s: Syn, e: Node, p: nat)
    requires s.SNum? || s.SStr? || s.SStar? || s.SCol?
    requires WF(s) && Strip(s) == e && !First(s).IsWord(NOT)
    ensures Prints(s, e, p) && FitsUnary(s)
  {
  }

  lemma IntervalTree(s: Syn, d: Decimal, p: nat)
    requires s.SInterval? && s.kw.IsWord(INTERVAL) && JsNumber(s.amount.value) == Some(d) && s.unit.upper == Unit(1)
    ensures Prints(s, Interval(d), p) && FitsUnary(s)
  {
  }

  lemma BinaryTree(s: Syn, l: Node, r: Node, op: BinOp, p: nat)
    requires s.SBin? && InfixOp(s.tok) == Some(op) && s.tok.mark.NoMark? && p <= op.Prec()
    requires Prints(s.left, l, op.Prec()) && Prints(s.right, r, op.Prec() + 1)
    ensures Prints(s, Binary(op, l, r), p)
  {
    FitsBelow(s.left, p, op.Prec());
    assert !Continues(s.left, [s.tok]);
  }

  lemma NegTree(e: Node, x: Syn, p: nat)
    requires Prints(x, e, 9) && IsUnary(x) && FitsUnary(x)
    ensures Prints(SNeg(OpToken(Sub), x), Neg(e), p) && FitsUnary(SNeg(OpToken(Sub), x))
  {
  }

  lemma NotTree(e: Node, x: Syn, p: nat)
    requires Prints(x, e, 3) && p <= 2
    ensures Prints(SNot(KwToken(NOT), x), Not(e), p)
  {
  }

  lemma InTree(s: Syn, e: Node, list: seq<Node>, p: nat)
    requires s.SIn? && p <= 3 && NoToks(s.no) && s.kw.IsWord(IN) && Prints(s.left, e, 3)
    requires ArgsShape(s.args) && WFItems(s.args.items) && FitsItems(s.args.items)
    requires StripItems(s.args.items) == list && s.args.distinct == []
    ensures Prints(s, In(e, list, s.no != []), p)
  {
    FitsBelow(s.left, p, 3);
    assert !Continues(s.left, s.no + [s.kw]);
  }

  lemma LikeTree(s: Syn, e: Node, pat: Node, p: nat)
    requires s.SLike? && p <= 3 && NoToks(s.no) && s.kw.IsWord(LIKE) && Prints(s.left, e, 3) && Prints(s.right, pat, 4)
    ensures Prints(s, Like(e, pat, s.no != []), p)
  {
    FitsBelow(s.left, p, 3);
    assert !Continues(s.left, s.no + [s.kw]);
  }

  lemma BetweenTree(s: Syn, e: Node, low: Node, high: Node, p: nat)
    requires s.SBetween? && p <= 3 && NoToks(s.no) && s.kw.IsWord(BETWEEN) && s.mid.IsWord(AND)
    requires Prints(s.left, e, 3) && Prints(s.low, low, 4) && Prints(s.right, high, 4)
    ensures Prints(s, Between(e, low, high, s.no != []), p)
  {
    FitsBelow(s.left, p, 3);
    ClosedBefore(s.left, e, s.no, s.kw);
    ClosedBeforeAnd(s.low, low, s.mid);
  }

  /** A printed operand of a predicate does not swallow its keyword. */
  lemma ClosedBefore(s: Syn, e: Node, no: seq<Token>, kw: Token)
    requires Prints(s, e, 3) && NoToks(no) && (kw.IsWord(IN) || kw.IsWord(LIKE) || kw.IsWord(BETWEEN))
    ensures !Continues(s, no + [kw])
  {
  }

  lemma ClosedBeforeAnd(s: Syn, e: Node, kw: Token)
    requires Prints(s, e, 4) && kw.IsWord(AND)
    ensures !Continues(s, [kw])
  {
  }

  lemma IsNullTree(s: Syn, e: Node, p: nat)
    requires s.SIsNull? && p <= 3 && s.kw.IsWord(IS) && NoToks(s.no) && s.null_.IsWord(NULL) && Prints(s.left, e, 3)
    ensures Prints(s, IsNull(e, s.no != []), p)
  {
    FitsBelow(s.left, p, 3);
    assert !Continues(s.left, [s.kw]);
  }

  lemma {:induction false} FuncPrints(e: Node)
    requires e.Func? && Printable(e)
    ensures WF(Bare(e)) && FitsUnary(Bare(e)) && Strip(Bare(e)) == e && !First(Bare(e)).IsWord(NOT)
    decreases e, 0
  {
    var no := if e.distinct then [KwToken(DISTINCT)] else [];
    ListPrints(e.args, no);
    if e.params.WithParams? {
      ListPrints(e.params.list, []);
    }
  }

  lemma {:induction false} ListPrints(list: seq<Node>, distinct: seq<Token>)
    requires forall a :: a in list ==> Printable(a)
    requires distinct == [] || (|distinct| == 1 && distinct[0].IsWord(DISTINCT))
    ensures var a := UnparseList(list, distinct);
            ArgsShape(a) && CallArgs(a) && WFItems(a.items) && FitsItems(a.items) && StripItems(a.items) == list
    decreases list, 5
  {
    if list != [] {
      UnparsePrints(list[0], 0);
      GuardedPrints(Unparse(list[0], 0), list[0]);
      TailPrints(list[1..]);
      assert list == [list[0]] + list[1..];
    }
  }

  lemma GuardedPrints(s: Syn, e: Node)
    requires Prints(s, e, 0)
    ensures Prints(Guarded(s), e, 0) && !First(Guarded(s)).mark.RParen? && !First(Guarded(s)).IsWord(DISTINCT)
  {
    if Guarded(s) != s {
      assert Guarded(s) == SParen(OPEN, s, CLOSE) && First(Guarded(s)) == OPEN;
    }
  }

  lemma {:induction false} TailPrints(list: seq<Node>)
    requires forall a :: a in list ==> Printable(a)
    ensures var l := UnparseTail(list); Separated(l) && WFItems(l) && FitsItems(l) && StripItems(l) == list
    decreases list, 4
  {
    if list != [] {
      UnparsePrints(list[0], 0);
      TailPrints(list[1..]);
      assert list == [list[0]] + list[1..];
    }
  }

  /** Parser inverse: printing with parentheses placed by precedence and parsing at that precedence gives
      the tree back and stops at the same token, whatever follows that cannot extend it. */
  lemma PrintThenParse(e: Node, p: nat, rest: seq<Token>)
    requires Printable(e) && !Extends(rest, p) && !Continues(Unparse(e, p), rest)
    ensures ParseExpr(Toks(Unparse(e, p)) + rest, p) == Ok(e, rest)
  {
    UnparsePrints(e, p);
    ReadsFully(Unparse(e, p), p, rest);
  }

  /** The one list the parser loses: it reads back as itself exactly when its first token does not carry
      the closer's spelling, be it a string literal or a quoted name. */
  lemma ListReadsBackIff(list: seq<Node>, rest: seq<Token>)
    requires |list| > 0 && forall a :: a in list ==> Printable(a)
    ensures var head := Unparse(list[0], 0);
            var ts := Toks(head) + (ToksItems(UnparseTail(list[1..])) + ([CLOSE] + rest));
            ParseItems(ts) == OkList(list, rest) <==> !First(head).mark.RParen?
  {
    var head, tail := Unparse(list[0], 0), UnparseTail(list[1..]);
    var ts := Toks(head) + (ToksItems(tail) + ([CLOSE] + rest));
    UnparsePrints(list[0], 0);
    TailPrints(list[1..]);
    StartsWithFirst(head);
    if !First(head).mark.RParen? {
      OpenListReads(head, tail, rest);
      assert list == [list[0]] + list[1..];
    }
  }

  lemma OpenListReads(head: Syn, tail: SItems, rest: seq<Token>)
    requires WF(head) && Fits(head, 0) && !First(head).mark.RParen?
    requires Separated(tail) && WFItems(tail) && FitsItems(tail)
    ensures ParseItems(Toks(head) + (ToksItems(tail) + ([CLOSE] + rest))) ==
              OkList([Strip(head)] + StripItems(tail), rest)
  {
    var a := SArgs(OPEN, [], SMore([], head, tail), CLOSE);
    ReadsItems(a, rest);
    CatAssoc(Toks(head), ToksItems(tail), [CLOSE] + rest);
    assert ToksItems(a.items) == Toks(head) + ToksItems(tail);
  }
}

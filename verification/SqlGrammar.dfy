/** The concrete grammar: trees that keep every token, including redundant parentheses. The parser accepts
    exactly the token sequences of well-formed trees, and returns the tree without its parentheses. */
module SqlGrammar {
  import opened Basics
  import opened SqlNumbers
  import opened SqlTokens
  import opened SqlSyntax

  datatype Syn =
    | SNum(tok: Token)
    | SStr(tok: Token)
    | SStar(tok: Token)
    | SCol(tok: Token)
    | SInterval(kw: Token, amount: Token, unit: Token)
    | SCall(name: Token, args: SArgs)
    | SParamCall(name: Token, params: SArgs, args: SArgs)
    | SParen(open: Token, inner: Syn, close: Token)
    | SNeg(tok: Token, operand: Syn)
    | SNot(tok: Token, operand: Syn)
    | SBin(left: Syn, tok: Token, right: Syn)
    | SIn(left: Syn, no: seq<Token>, kw: Token, args: SArgs)
    | SLike(left: Syn, no: seq<Token>, kw: Token, right: Syn)
    | SBetween(left: Syn, no: seq<Token>, kw: Token, low: Syn, mid: Token, right: Syn)
    | SIsNull(left: Syn, kw: Token, no: seq<Token>, null_: Token)

  datatype SArgs = SArgs(open: Token, distinct: seq<Token>, items: SItems, close: Token)

  /** `sep` is empty before the first item and one comma before every other. */
  datatype SItems = SNone | SMore(sep: seq<Token>, head: Syn, tail: SItems)

  function Toks(s: Syn): (ts: seq<Token>) {
    match s
    case SNum(t) => [t]
    case SStr(t) => [t]
    case SStar(t) => [t]
    case SCol(t) => [t]
    case SInterval(kw, amount, unit) => [kw, amount, unit]
    case SCall(name, args) => [name] + Wrap(args, ToksItems(args.items))
    case SParamCall(name, params, args) =>
      [name] + (Wrap(params, ToksItems(params.items)) + Wrap(args, ToksItems(args.items)))
    case SParen(open, inner, close) => [open] + (Toks(inner) + [close])
    case SNeg(t, x) => [t] + Toks(x)
    case SNot(t, x) => [t] + Toks(x)
    case SBin(l, t, r) => Toks(l) + ([t] + Toks(r))
    case SIn(l, no, kw, args) => Toks(l) + (no + ([kw] + Wrap(args, ToksItems(args.items))))
    case SLike(l, no, kw, r) => Toks(l) + (no + ([kw] + Toks(r)))
    case SBetween(l, no, kw, low, mid, r) => Toks(l) + (no + ([kw] + (Toks(low) + ([mid] + Toks(r)))))
    case SIsNull(l, kw, no, null_) => Toks(l) + ([kw] + (no + [null_]))
  }

  /** An argument list around the tokens of its items. */
  function Wrap(a: SArgs, items: seq<Token>): seq<Token> {
    [a.open] + (a.distinct + (items + [a.close]))
  }

  function ToksItems(l: SItems): seq<Token> {
    match l
    case SNone => []
    case SMore(sep, head, tail) => sep + (Toks(head) + ToksItems(tail))
  }

  /** The abstract tree: parentheses gone, a second argument list turned into parameters. */
  function Strip(s: Syn): Node
    requires WF(s)
  {
    match s
    case SNum(t) => Num(JsNumber(t.value).value)
    case SStr(t) => Str(t.value)
    case SStar(_) => Star
    case SCol(t) => Col(t.value)
    case SInterval(_, amount, unit) => Interval(Times(JsNumber(amount.value).value, unit.upper.seconds))
    case SCall(name, args) => Func(name.value, StripItems(args.items), NoParams, args.distinct != [])
    case SParamCall(name, params, args) =>
      Func(name.value, StripItems(args.items), WithParams(StripItems(params.items)), false)
    case SParen(_, inner, _) => Strip(inner)
    case SNeg(_, x) => Neg(Strip(x))
    case SNot(_, x) => Not(Strip(x))
    case SBin(l, t, r) => Binary(InfixOp(t).value, Strip(l), Strip(r))
    case SIn(l, no, _, args) => In(Strip(l), StripItems(args.items), no != [])
    case SLike(l, no, _, r) => Like(Strip(l), Strip(r), no != [])
    case SBetween(l, no, _, low, _, r) => Between(Strip(l), Strip(low), Strip(r), no != [])
    case SIsNull(l, _, no, _) => IsNull(Strip(l), no != [])
  }

  function StripItems(l: SItems): seq<Node>
    requires WFItems(l)
  {
    match l
    case SNone => []
    case SMore(_, head, tail) => [Strip(head)] + StripItems(tail)
  }

  /** The token starting a tree. */
  function First(s: Syn): Token {
    match s
    case SNum(t) => t
    case SStr(t) => t
    case SStar(t) => t
    case SCol(t) => t
    case SInterval(kw, _, _) => kw
    case SCall(name, _) => name
    case SParamCall(name, _, _) => name
    case SParen(open, _, _) => open
    case SNeg(t, _) => t
    case SNot(t, _) => t
    case SBin(l, _, _) => First(l)
    case SIn(l, _, _, _) => First(l)
    case SLike(l, _, _, _) => First(l)
    case SBetween(l, _, _, _, _, _) => First(l)
    case SIsNull(l, _, _, _) => First(l)
  }

  /** An identifier the parser reads as a name: not INTERVAL, not spelled as a parenthesis. */
  predicate NameTok(t: Token) {
    t.kind.IdentTok? && !t.upper.INTERVAL? && !t.mark.LParen?
  }

  predicate OpenTok(t: Token) {
    t.mark.LParen? && !t.kind.StrTok?
  }

  predicate NoToks(no: seq<Token>) {
    no == [] || (|no| == 1 && no[0].IsWord(NOT))
  }

  /** Every token stands where the parser looks for it. */
  predicate WF(s: Syn) {
    match s
    case SNum(t) => t.kind.NumTok? && JsNumber(t.value).Some?
    case SStr(t) => t.kind.StrTok?
    case SStar(t) => t.kind == OpTok(Mul)
    case SCol(t) => NameTok(t)
    case SInterval(kw, amount, unit) => kw.IsWord(INTERVAL) && JsNumber(amount.value).Some? && unit.upper.Unit?
    case SCall(name, args) => NameTok(name) && ArgsShape(args) && WFItems(args.items)
    case SParamCall(name, params, args) =>
      NameTok(name) && ArgsShape(params) && WFItems(params.items) && ArgsShape(args) && WFItems(args.items)
    case SParen(open, inner, close) => OpenTok(open) && WF(inner) && close.mark.RParen?
    case SNeg(t, x) => t.kind == OpTok(Sub) && WF(x)
    case SNot(t, x) => t.IsWord(NOT) && WF(x)
    case SBin(l, t, r) => WF(l) && InfixOp(t).Some? && WF(r)
    case SIn(l, no, kw, args) =>
      WF(l) && NoToks(no) && kw.IsWord(IN) && ArgsShape(args) && WFItems(args.items) && args.distinct == []
    case SLike(l, no, kw, r) => WF(l) && NoToks(no) && kw.IsWord(LIKE) && WF(r)
    case SBetween(l, no, kw, low, mid, r) =>
      WF(l) && NoToks(no) && kw.IsWord(BETWEEN) && WF(low) && mid.IsWord(AND) && WF(r)
    case SIsNull(l, kw, no, null_) => WF(l) && kw.IsWord(IS) && NoToks(no) && null_.IsWord(NULL)
  }

  /** The brackets and commas of a list stand in their places, and its first token is not taken for the closer. */
  predicate ArgsShape(a: SArgs) {
    && a.open.mark.LParen?
    && (a.distinct == [] || (|a.distinct| == 1 && a.distinct[0].IsWord(DISTINCT)))
    && a.close.mark.RParen?
    && (a.items.SMore? ==> a.items.sep == [] && !First(a.items.head).mark.RParen? && Separated(a.items.tail))
  }

  predicate WFItems(l: SItems) {
    l.SMore? ==> WF(l.head) && WFItems(l.tail)
  }

  predicate Separated(l: SItems) {
    l.SMore? ==> |l.sep| == 1 && l.sep[0].mark.Comma? && Separated(l.tail)
  }

  /** A first argument that is itself spelled DISTINCT needs the keyword before it. */
  predicate CallArgs(a: SArgs) {
    a.distinct == [] && a.items.SMore? ==> !First(a.items.head).IsWord(DISTINCT)
  }

  predicate IsUnary(s: Syn) {
    s.SNum? || s.SStr? || s.SStar? || s.SCol? || s.SInterval? || s.SCall? || s.SParamCall? || s.SParen? || s.SNeg?
  }

  /** The loosest operator that a still open sub-expression at the right edge would swallow. */
  function Trail(s: Syn): (q: nat)
    ensures 2 <= q <= 7
  {
    match s
    case SNot(_, x) => Min(3, Trail(x))
    case SBin(_, t, r) => Min(if InfixOp(t).Some? then InfixOp(t).value.Prec() + 1 else 7, Trail(r))
    case SLike(_, _, _, r) => Min(4, Trail(r))
    case SBetween(_, _, _, _, _, r) => Min(4, Trail(r))
    case _ => 7
  }

  /** Whether the tree ends in a name or a single argument list, which a parenthesis would extend. */
  predicate Callable(s: Syn) {
    match s
    case SCol(_) | SCall(_, _) => true
    case SNeg(_, x) => Callable(x)
    case SNot(_, x) => Callable(x)
    case SBin(_, _, r) => Callable(r)
    case SLike(_, _, _, r) => Callable(r)
    case SBetween(_, _, _, _, _, r) => Callable(r)
    case _ => false
  }

  /** Whether the tokens after a tree would be swallowed by something still open inside it. */
  predicate Continues(s: Syn, rest: seq<Token>) {
    (Callable(s) && |rest| > 0 && rest[0].mark.LParen?) || Extends(rest, Trail(s))
  }

  /** Whether the tree can be read at minimum precedence `p` with no parenthesis added: the PRECEDENCE
      table, left associativity, predicates at comparison level and NOT above its comparison operand. */
  predicate Fits(s: Syn, p: nat)
    decreases s, 1
  {
    match s
    case SNot(_, x) => Fits(x, 3)
    case SBin(l, t, r) =>
      && InfixOp(t).Some? && p <= InfixOp(t).value.Prec()
      && Fits(l, p) && !Continues(l, [t]) && Fits(r, InfixOp(t).value.Prec() + 1)
    case SIn(l, no, kw, args) => p <= 3 && Fits(l, p) && !Continues(l, no + [kw]) && FitsItems(args.items)
    case SLike(l, no, kw, r) => p <= 3 && Fits(l, p) && !Continues(l, no + [kw]) && Fits(r, 4)
    case SBetween(l, no, kw, low, mid, r) =>
      p <= 3 && Fits(l, p) && !Continues(l, no + [kw]) && Fits(low, 4) && !Continues(low, [mid]) && Fits(r, 4)
    case SIsNull(l, kw, _, _) => p <= 3 && Fits(l, p) && !Continues(l, [kw])
    case _ => FitsUnary(s) && !First(s).IsWord(NOT)
  }

  /** Unary trees bind tightest; only behind a minus sign may a name be spelled NOT. */
  predicate FitsUnary(s: Syn)
    decreases s, 0
  {
    match s
    case SCall(_, args) => CallArgs(args) && FitsItems(args.items)
    case SParamCall(_, params, args) =>
      CallArgs(params) && FitsItems(params.items) && CallArgs(args) && FitsItems(args.items)
    case SParen(_, inner, _) => Fits(inner, 0)
    case SNeg(_, x) => FitsUnary(x)
    case _ => IsUnary(s)
  }

  predicate FitsItems(l: SItems) {
    l.SMore? ==> Fits(l.head, 0) && FitsItems(l.tail)
  }
}

/** The parser's abstract syntax tree, and its grammar as a pure function on token suffixes. */
module SqlSyntax {
  import opened Basics
  import opened SqlNumbers
  import opened SqlTokens

  datatype Node =
    | Num(value: Decimal)
    | Str(text: string)
    | Col(name: string)
    | Star
    | Func(name: string, args: seq<Node>, params: Params, distinct: bool)
    | Interval(seconds: Decimal)
    | Binary(op: BinOp, left: Node, right: Node)
    | Neg(operand: Node)
    | Not(operand: Node)
    | In(expr: Node, list: seq<Node>, negate: bool)
    | Like(expr: Node, pattern: Node, negate: bool)
    | Between(expr: Node, low: Node, high: Node, negate: bool)
    | IsNull(expr: Node, negate: bool)

  /** The first list of a parametric aggregate such as quantile(0.5)(double1). */
  datatype Params = NoParams | WithParams(list: seq<Node>)

  datatype Error =
    | UnexpectedEnd
    | Expected(what: string)
    | UnexpectedToken(value: string)
    | BadNumber(value: string)
    | BadInterval(value: string)

  datatype Parse = Ok(node: Node, rest: seq<Token>) | Fail(error: Error)

  datatype ParseList = OkList(nodes: seq<Node>, tail: seq<Token>) | FailList(err: Error)

  /** IN, LIKE, BETWEEN and IS start a postfix predicate; NOT does when one of the first three follows. */
  predicate Postfix(ts: seq<Token>) {
    |ts| > 0 && ts[0].kind.IdentTok?
        && (ts[0].upper.IN? || ts[0].upper.LIKE? || ts[0].upper.BETWEEN? || ts[0].upper.IS?)
  }

  predicate NegatedPostfix(ts: seq<Token>) {
    && |ts| > 1 && ts[0].IsWord(NOT)
    && ts[1].kind.IdentTok? && (ts[1].upper.IN? || ts[1].upper.LIKE? || ts[1].upper.BETWEEN?)
  }

  function InfixOp(t: Token): Option<BinOp> {
    match t.kind
    case OpTok(op) => Some(op)
    case IdentTok => if t.upper.AND? then Some(And) else if t.upper.OR? then Some(Or) else None
    case _ => None
  }

  /** Whether the loop of `parseExpr(p)` would take the next token. */
  predicate Extends(ts: seq<Token>, p: nat) {
    && |ts| > 0
    && (|| (p <= 3 && (Postfix(ts) || NegatedPostfix(ts)))
        || (InfixOp(ts[0]).Some? && InfixOp(ts[0]).value.Prec() >= p))
  }

  function ParseExpr(ts: seq<Token>, p: nat): (r: Parse)
    ensures r.Ok? ==> |r.rest| < |ts|
    decreases |ts|, 3
  {
    var l := ParsePrefix(ts);
    if l.Fail? then l else ParseLoop(l.node, l.rest, p)
  }

  /** The Pratt loop: postfix predicates first, then binary operators of precedence at least `p`. */
  function ParseLoop(left: Node, ts: seq<Token>, p: nat): (r: Parse)
    ensures r.Ok? ==> |r.rest| <= |ts|
    decreases |ts|, 4
  {
    if !Extends(ts, p) then Ok(left, ts)
    else if p <= 3 && Postfix(ts) then
      var l := ParsePredicate(left, ts, false);
      if l.Fail? then l else ParseLoop(l.node, l.rest, p)
    else if p <= 3 && NegatedPostfix(ts) then
      var l := ParsePredicate(left, ts[1..], true);
      if l.Fail? then l else ParseLoop(l.node, l.rest, p)
    else
      var op := InfixOp(ts[0]).value;
      var right := ParseExpr(ts[1..], op.Prec() + 1);
      if right.Fail? then right else ParseLoop(Binary(op, left, right.node), right.rest, p)
  }

  function ParsePredicate(left: Node, ts: seq<Token>, negate: bool): (r: Parse)
    requires |ts| > 0
    ensures r.Ok? ==> |r.rest| < |ts|
    decreases |ts|, 1
  {
    match ts[0].upper
    case IN =>
      if |ts| == 1 then Fail(UnexpectedEnd)
      else if !ts[1].mark.LParen? then Fail(Expected("( after IN"))
      else
        var list := ParseItems(ts[2..]);
        if list.FailList? then Fail(list.err) else Ok(In(left, list.nodes, negate), list.tail)
    case LIKE =>
      var pat := ParseExpr(ts[1..], 4);
      if pat.Fail? then pat else Ok(Like(left, pat.node, negate), pat.rest)
    case BETWEEN => ParseBetween(left, ts[1..], negate)
    case _ => ParseIsNull(left, ts[1..])
  }

  function ParseBetween(left: Node, ts: seq<Token>, negate: bool): (r: Parse)
    ensures r.Ok? ==> |r.rest| < |ts|
    decreases |ts|, 5
  {
    var low := ParseExpr(ts, 4);
    if low.Fail? then low
    else if |low.rest| == 0 || !low.rest[0].IsWord(AND) then Fail(Expected("AND"))
    else
      var high := ParseExpr(low.rest[1..], 4);
      if high.Fail? then high else Ok(Between(left, low.node, high.node, negate), high.rest)
  }

  function ParseIsNull(left: Node, ts: seq<Token>): (r: Parse)
    ensures r.Ok? ==> |r.rest| < |ts|
  {
    var negated := |ts| > 0 && ts[0].IsWord(NOT);
    var rest := if negated then ts[1..] else ts;
    if |rest| == 0 || !rest[0].IsWord(NULL) then Fail(Expected("NULL"))
    else Ok(IsNull(left, negated), rest[1..])
  }

  /** The comma list of an IN list or a call, up to and including the closing parenthesis. */
  function ParseItems(ts: seq<Token>): (r: ParseList)
    ensures r.OkList? ==> |r.tail| < |ts|
    decreases |ts|, 6
  {
    if |ts| > 0 && ts[0].mark.RParen? then OkList([], ts[1..])
    else
      var first := ParseExpr(ts, 0);
      if first.Fail? then FailList(first.error) else ParseMore([first.node], first.rest)
  }

  function ParseMore(acc: seq<Node>, ts: seq<Token>): (r: ParseList)
    ensures r.OkList? ==> |r.tail| < |ts|
    decreases |ts|, 6
  {
    if |ts| == 0 then FailList(UnexpectedEnd)
    else if ts[0].mark.Comma? then
      var item := ParseExpr(ts[1..], 0);
      if item.Fail? then FailList(item.error) else ParseMore(acc + [item.node], item.rest)
    else if ts[0].mark.RParen? then OkList(acc, ts[1..])
    else FailList(Expected(")"))
  }

  /** Logical NOT is a prefix that binds looser than comparison and tighter than AND. */
  function ParsePrefix(ts: seq<Token>): (r: Parse)
    ensures r.Ok? ==> |r.rest| < |ts|
    decreases |ts|, 2
  {
    if |ts| > 0 && ts[0].IsWord(NOT) then
      var operand := ParseExpr(ts[1..], 3);
      if operand.Fail? then operand else Ok(Not(operand.node), operand.rest)
    else ParseUnary(ts)
  }

  function ParseUnary(ts: seq<Token>): (r: Parse)
    ensures r.Ok? ==> |r.rest| < |ts|
    decreases |ts|, 1
  {
    if |ts| > 0 && ts[0].kind == OpTok(Sub) then
      var operand := ParseUnary(ts[1..]);
      if operand.Fail? then operand else Ok(Neg(operand.node), operand.rest)
    else ParsePrimary(ts)
  }

  function ParsePrimary(ts: seq<Token>): (r: Parse)
    ensures r.Ok? ==> |r.rest| < |ts|
    decreases |ts|, 0
  {
    if |ts| == 0 then Fail(UnexpectedEnd)
    else
      var t := ts[0];
      if t.kind.NumTok? then
        var n := JsNumber(t.value);
        if n.None? then Fail(BadNumber(t.value)) else Ok(Num(n.value), ts[1..])
      else if t.kind.StrTok? then Ok(Str(t.value), ts[1..])
      else if t.kind == OpTok(Mul) then Ok(Star, ts[1..])
      else if t.mark.LParen? then ParseGroup(ts[1..])
      else if t.kind.IdentTok? then
        if t.upper.INTERVAL? then ParseInterval(ts[1..])
        else if |ts| > 1 && ts[1].mark.LParen? then ParseCall(t.value, ts[2..])
        else Ok(Col(t.value), ts[1..])
      else Fail(UnexpectedToken(t.value))
  }

  function ParseGroup(ts: seq<Token>): (r: Parse)
    ensures r.Ok? ==> |r.rest| < |ts|
    decreases |ts|, 5
  {
    var inner := ParseExpr(ts, 0);
    if inner.Fail? then inner
    else if |inner.rest| == 0 then Fail(UnexpectedEnd)
    else if !inner.rest[0].mark.RParen? then Fail(Expected(")"))
    else Ok(inner.node, inner.rest[1..])
  }

  /** `INTERVAL n UNIT`: the amount may be any token `Number` can read, the unit any token that spells one. */
  function ParseInterval(ts: seq<Token>): (r: Parse)
    ensures r.Ok? ==> |r.rest| < |ts|
  {
    if |ts| == 0 then Fail(UnexpectedEnd)
    else
      var amount := JsNumber(ts[0].value);
      if amount.None? then Fail(BadInterval(ts[0].value))
      else if |ts| == 1 then Fail(UnexpectedEnd)
      else if !ts[1].upper.Unit? then Fail(BadInterval(ts[1].value))
      else Ok(Interval(Times(amount.value, ts[1].upper.seconds)), ts[2..])
  }

  function Times(d: Decimal, n: nat): Decimal {
    Normalize(d.mantissa * n, d.scale)
  }

  /** After `name (`: one argument list, or a parameter list followed by an argument list. A second
      list makes the first one the parameters and forgets both DISTINCT flags. */
  function ParseCall(name: string, ts: seq<Token>): (r: Parse)
    ensures r.Ok? ==> |r.rest| < |ts|
    decreases |ts|, 8
  {
    var distinct := |ts| > 0 && ts[0].IsWord(DISTINCT);
    var first := ParseArgs(ts);
    if first.FailList? then Fail(first.err)
    else if |first.tail| > 0 && first.tail[0].mark.LParen? then
      var second := ParseArgs(first.tail[1..]);
      if second.FailList? then Fail(second.err)
      else Ok(Func(name, second.nodes, WithParams(first.nodes), false), second.tail)
    else Ok(Func(name, first.nodes, NoParams, distinct), first.tail)
  }

  function ParseArgs(ts: seq<Token>): (r: ParseList)
    ensures r.OkList? ==> |r.tail| < |ts|
    decreases |ts|, 7
  {
    if |ts| > 0 && ts[0].IsWord(DISTINCT) then ParseItems(ts[1..]) else ParseItems(ts)
  }
}

/** Completeness: the parser reads back every well-formed concrete tree. */
module SqlParserComplete {
  import opened Basics
  import opened SqlNumbers
  import opened SqlTokens
  import opened SqlSyntax
  import opened SqlGrammar

  lemma StartsWithFirst(s: Syn)
    ensures |Toks(s)| > 0 && Toks(s)[0] == First(s)
  {
  }

  lemma CatAssoc(a: seq<Token>, b: seq<Token>, c: seq<Token>)
    ensures (a + b) + c == a + (b + c)
  {
  }

  lemma WrapThen(a: SArgs, items: seq<Token>, rest: seq<Token>)
    ensures Wrap(a, items) + rest == [a.open] + (a.distinct + (items + ([a.close] + rest)))
  {
  }

  /** A tree read at precedence `p` leaves the loop at `p` holding it, in front of the remaining tokens. */
  lemma {:induction false} Reads(s: Syn, p: nat, rest: seq<Token>)
    requires WF(s) && Fits(s, p) && !Continues(s, rest)
    ensures ParseExpr(Toks(s) + rest, p) == ParseLoop(Strip(s), rest, p)
    decreases s, 6
  {
    match s
    case SNot(_, _) => ReadsNot(s, rest);
    case SBin(_, _, _) => ReadsBin(s, p, rest);
    case SIn(_, _, _, _) => ReadsIn(s, p, rest);
    case SLike(_, _, _, _) => ReadsLike(s, p, rest);
    case SBetween(_, _, _, _, _, _) => ReadsBetween(s, p, rest);
    case SIsNull(_, _, _, _) => ReadsIsNull(s, p, rest);
    case _ =>
      ReadsUnary(s, rest);
      StartsWithFirst(s);
  }

  lemma {:induction false} ReadsBin(s: Syn, p: nat, rest: seq<Token>)
    requires s.SBin? && WF(s) && Fits(s, p) && !Continues(s, rest)
    ensures ParseExpr(Toks(s) + rest, p) == ParseLoop(Strip(s), rest, p)
    decreases s, 5
  {
    var SBin(l, t, r) := s;
    BinTokens(s, rest);
    ReadsBinLeft(s, p, Toks(r) + rest);
    ReadsBinRight(s, p, rest);
    LoopTakesInfix(Strip(l), t, Toks(r) + rest, p, Strip(r), rest);
  }

  lemma {:induction false} ReadsBinLeft(s: Syn, p: nat, more: seq<Token>)
    requires s.SBin? && WF(s) && Fits(s, p)
    ensures ParseExpr(Toks(s.left) + ([s.tok] + more), p) == ParseLoop(Strip(s.left), [s.tok] + more, p)
    decreases s, 4
  {
    InfixLooksAtOne(s.left, s.tok, more);
    Reads(s.left, p, [s.tok] + more);
  }

  lemma {:induction false} ReadsBinRight(s: Syn, p: nat, rest: seq<Token>)
    requires s.SBin? && WF(s) && Fits(s, p) && !Continues(s, rest)
    ensures ParseExpr(Toks(s.right) + rest, InfixOp(s.tok).value.Prec() + 1) == Ok(Strip(s.right), rest)
    decreases s, 4
  {
    ReadsFully(s.right, InfixOp(s.tok).value.Prec() + 1, rest);
  }

  lemma BinTokens(s: Syn, rest: seq<Token>)
    requires s.SBin?
    ensures Toks(s) + rest == Toks(s.left) + ([s.tok] + (Toks(s.right) + rest))
  {
    CatAssoc(Toks(s.left), [s.tok] + Toks(s.right), rest);
    CatAssoc([s.tok], Toks(s.right), rest);
  }

  /** Only NOT makes the parser look one token further. */
  lemma InfixLooksAtOne(l: Syn, t: Token, more: seq<Token>)
    requires InfixOp(t).Some?
    ensures Continues(l, [t] + more) == Continues(l, [t])
  {
  }

  lemma LoopTakesInfix(left: Node, t: Token, ts: seq<Token>, p: nat, right: Node, rest: seq<Token>)
    requires InfixOp(t).Some? && p <= InfixOp(t).value.Prec()
    requires ParseExpr(ts, InfixOp(t).value.Prec() + 1) == Ok(right, rest)
    ensures ParseLoop(left, [t] + ts, p) == ParseLoop(Binary(InfixOp(t).value, left, right), rest, p)
  {
  }

  lemma {:induction false} ReadsIn(s: Syn, p: nat, rest: seq<Token>)
    requires s.SIn? && WF(s) && Fits(s, p) && !Continues(s, rest)
    ensures ParseExpr(Toks(s) + rest, p) == ParseLoop(Strip(s), rest, p)
    decreases s, 5
  {
    var SIn(l, no, kw, args) := s;
    var tail := [kw] + (Wrap(args, ToksItems(args.items)) + rest);
    assert Toks(s) + rest == Toks(l) + (no + tail);
    ReadsLeft(l, p, no, tail);
    ReadsInList(Strip(l), kw, args, rest, no != []);
  }

  lemma {:induction false} ReadsLike(s: Syn, p: nat, rest: seq<Token>)
    requires s.SLike? && WF(s) && Fits(s, p) && !Continues(s, rest)
    ensures ParseExpr(Toks(s) + rest, p) == ParseLoop(Strip(s), rest, p)
    decreases s, 5
  {
    var SLike(l, no, kw, r) := s;
    var tail := [kw] + (Toks(r) + rest);
    assert Toks(s) + rest == Toks(l) + (no + tail);
    ReadsLeft(l, p, no, tail);
    assert tail[1..] == Toks(r) + rest;
    ReadsFully(r, 4, rest);
  }

  lemma {:induction false} ReadsBetween(s: Syn, p: nat, rest: seq<Token>)
    requires s.SBetween? && WF(s) && Fits(s, p) && !Continues(s, rest)
    ensures ParseExpr(Toks(s) + rest, p) == ParseLoop(Strip(s), rest, p)
    decreases s, 5
  {
    var SBetween(l, no, kw, low, mid, r) := s;
    var tail := [kw] + (Toks(low) + ([mid] + (Toks(r) + rest)));
    BetweenTokens(s, rest);
    ReadsLeft(l, p, no, tail);
    ReadsBounds(s, Strip(l), rest);
  }

  lemma BetweenTokens(s: Syn, rest: seq<Token>)
    requires s.SBetween?
    ensures Toks(s) + rest
         == Toks(s.left) + (s.no + ([s.kw] + (Toks(s.low) + ([s.mid] + (Toks(s.right) + rest)))))
  {
    var upper := [s.mid] + Toks(s.right);
    CatAssoc(Toks(s.left), s.no + ([s.kw] + (Toks(s.low) + upper)), rest);
    CatAssoc(s.no, [s.kw] + (Toks(s.low) + upper), rest);
    CatAssoc([s.kw], Toks(s.low) + upper, rest);
    CatAssoc(Toks(s.low), upper, rest);
    CatAssoc([s.mid], Toks(s.right), rest);
  }

  lemma {:induction false} ReadsIsNull(s: Syn, p: nat, rest: seq<Token>)
    requires s.SIsNull? && WF(s) && Fits(s, p) && !Continues(s, rest)
    ensures ParseExpr(Toks(s) + rest, p) == ParseLoop(Strip(s), rest, p)
    decreases s, 5
  {
    var SIsNull(l, kw, no, null_) := s;
    var end := no + ([null_] + rest);
    var tail := [kw] + end;
    assert Toks(s) + rest == Toks(l) + ([] + tail);
    assert [] + [kw] == [kw];
    ReadsLeft(l, p, [], tail);
    assert tail[1..] == end;
    assert no != [] ==> end[1..] == [null_] + rest;
    assert no == [] ==> end == [null_] + rest;
    assert ([null_] + rest)[1..] == rest;
  }

  lemma {:induction false} ReadsFully(s: Syn, p: nat, rest: seq<Token>)
    requires WF(s) && Fits(s, p) && !Continues(s, rest) && !Extends(rest, p)
    ensures ParseExpr(Toks(s) + rest, p) == Ok(Strip(s), rest)
    decreases s, 7
  {
    Reads(s, p, rest);
  }

  lemma {:induction false} ReadsNot(s: Syn, rest: seq<Token>)
    requires s.SNot? && WF(s) && Fits(s.operand, 3) && !Continues(s, rest)
    ensures ParsePrefix(Toks(s) + rest) == Ok(Strip(s), rest)
    decreases s, 2
  {
    assert (Toks(s) + rest)[1..] == Toks(s.operand) + rest;
    ReadsFully(s.operand, 3, rest);
  }

  /** The left side of a postfix predicate, up to the step of the loop that reads the predicate. */
  lemma {:induction false} ReadsLeft(l: Syn, p: nat, no: seq<Token>, tail: seq<Token>)
    requires WF(l) && Fits(l, p) && p <= 3 && |tail| > 0 && NoToks(no) && !Continues(l, no + [tail[0]])
    requires Postfix(tail) && (no != [] ==> !tail[0].upper.IS?)
    ensures ParseExpr(Toks(l) + (no + tail), p) ==
            var step := ParsePredicate(Strip(l), tail, no != []);
            if step.Fail? then step else ParseLoop(step.node, step.rest, p)
    decreases l, 8
  {
    assert !Continues(l, no + tail);
    Reads(l, p, no + tail);
    assert no != [] ==> (no + tail)[1..] == tail;
    assert no == [] ==> no + tail == tail;
  }

  lemma {:induction false} ReadsInList(left: Node, kw: Token, args: SArgs, rest: seq<Token>, negate: bool)
    requires kw.IsWord(IN) && ArgsShape(args) && WFItems(args.items) && FitsItems(args.items) && args.distinct == []
    ensures ParsePredicate(left, [kw] + (Wrap(args, ToksItems(args.items)) + rest), negate)
         == Ok(In(left, StripItems(args.items), negate), rest)
    decreases args, 3
  {
    var ts := [kw] + (Wrap(args, ToksItems(args.items)) + rest);
    assert ts[2..] == ToksItems(args.items) + ([args.close] + rest);
    ReadsItems(args, rest);
  }

  lemma {:induction false} ReadsBounds(s: Syn, left: Node, rest: seq<Token>)
    requires s.SBetween? && WF(s) && Fits(s.low, 4) && !Continues(s.low, [s.mid]) && Fits(s.right, 4)
    requires !Continues(s, rest)
    ensures ParsePredicate(left, [s.kw] + (Toks(s.low) + ([s.mid] + (Toks(s.right) + rest))), s.no != [])
         == Ok(Between(left, Strip(s.low), Strip(s.right), s.no != []), rest)
    decreases s, 2
  {
    var after := [s.mid] + (Toks(s.right) + rest);
    assert ([s.kw] + (Toks(s.low) + after))[1..] == Toks(s.low) + after;
    ReadsFully(s.low, 4, after);
    assert after[1..] == Toks(s.right) + rest;
    ReadsFully(s.right, 4, rest);
  }

  lemma {:induction false} ReadsUnary(s: Syn, rest: seq<Token>)
    requires WF(s) && FitsUnary(s) && !Continues(s, rest)
    ensures ParseUnary(Toks(s) + rest) == Ok(Strip(s), rest)
    decreases s, 4
  {
    match s
    case SNeg(_, _) => ReadsNeg(s, rest);
    case SCall(_, _) => ReadsCall(s, rest);
    case SParamCall(_, _, _) => ReadsParamCall(s, rest);
    case SParen(_, _, _) => ReadsParen(s, rest);
    case _ => ReadsAtom(s, rest);
  }

  lemma {:induction false} ReadsNeg(s: Syn, rest: seq<Token>)
    requires s.SNeg? && WF(s) && FitsUnary(s) && !Continues(s, rest)
    ensures ParseUnary(Toks(s) + rest) == Ok(Strip(s), rest)
    decreases s, 3
  {
    assert (Toks(s) + rest)[1..] == Toks(s.operand) + rest;
    ReadsUnary(s.operand, rest);
  }

  lemma {:induction false} ReadsAtom(s: Syn, rest: seq<Token>)
    requires s.SNum? || s.SStr? || s.SStar? || s.SCol? || s.SInterval?
    requires WF(s) && !Continues(s, rest)
    ensures ParsePrimary(Toks(s) + rest) == Ok(Strip(s), rest)
  {
  }

  lemma {:induction false} ReadsParen(s: Syn, rest: seq<Token>)
    requires s.SParen? && WF(s) && Fits(s.inner, 0)
    ensures ParsePrimary(Toks(s) + rest) == Ok(Strip(s), rest)
    decreases s, 3
  {
    var after := [s.close] + rest;
    assert (Toks(s) + rest)[1..] == Toks(s.inner) + after;
    ReadsFully(s.inner, 0, after);
    assert after[1..] == rest;
  }

  lemma {:induction false} ReadsCall(s: Syn, rest: seq<Token>)
    requires s.SCall? && WF(s) && CallArgs(s.args) && FitsItems(s.args.items) && !Continues(s, rest)
    ensures ParsePrimary(Toks(s) + rest) == Ok(Strip(s), rest)
    decreases s, 3
  {
    var items := ToksItems(s.args.items);
    var inside := s.args.distinct + (items + ([s.args.close] + rest));
    ReadsArgs(s.args, rest);
    assert ParseCall(s.name.value, inside) == Ok(Strip(s), rest);
    CatAssoc([s.name], Wrap(s.args, items), rest);
    WrapThen(s.args, items, rest);
    CallTokens(s.name, s.args.open, inside);
  }

  /** A name and an opening parenthesis send the parser into the call. */
  lemma CallTokens(name: Token, open: Token, inside: seq<Token>)
    requires NameTok(name) && open.mark.LParen?
    ensures ParsePrimary([name] + ([open] + inside)) == ParseCall(name.value, inside)
  {
    var ts := [name] + ([open] + inside);
    assert ts[2..] == inside;
  }

  lemma {:induction false} ReadsParamCall(s: Syn, rest: seq<Token>)
    requires s.SParamCall? && WF(s) && CallArgs(s.params) && FitsItems(s.params.items) && CallArgs(s.args)
    requires FitsItems(s.args.items)
    ensures ParsePrimary(Toks(s) + rest) == Ok(Strip(s), rest)
    decreases s, 3
  {
    var first, second := ToksItems(s.params.items), ToksItems(s.args.items);
    var after := s.args.distinct + (second + ([s.args.close] + rest));
    var inside := s.params.distinct + (first + ([s.params.close] + ([s.args.open] + after)));
    ReadsArgs(s.params, [s.args.open] + after);
    assert ([s.args.open] + after)[1..] == after;
    ReadsArgs(s.args, rest);
    assert ParseCall(s.name.value, inside) == Ok(Strip(s), rest);
    CatAssoc([s.name], Wrap(s.params, first) + Wrap(s.args, second), rest);
    CatAssoc(Wrap(s.params, first), Wrap(s.args, second), rest);
    WrapThen(s.args, second, rest);
    WrapThen(s.params, first, [s.args.open] + after);
    CallTokens(s.name, s.params.open, inside);
  }

  /** DISTINCT is recognised exactly when the list carries it. */
  lemma {:induction false} ReadsArgs(a: SArgs, rest: seq<Token>)
    requires ArgsShape(a) && WFItems(a.items) && CallArgs(a) && FitsItems(a.items)
    ensures var ts := a.distinct + (ToksItems(a.items) + ([a.close] + rest));
            && |ts| > 0 && ts[0].IsWord(DISTINCT) == (a.distinct != [])
            && ParseArgs(ts) == OkList(StripItems(a.items), rest)
    decreases a, 4
  {
    var body := ToksItems(a.items) + ([a.close] + rest);
    ReadsItems(a, rest);
    if a.distinct == [] {
      assert a.distinct + body == body;
      if a.items.SMore? { StartsWithFirst(a.items.head); }
    } else {
      assert (a.distinct + body)[1..] == body;
    }
  }

  lemma {:induction false} ReadsItems(a: SArgs, rest: seq<Token>)
    requires ArgsShape(a) && WFItems(a.items) && FitsItems(a.items)
    ensures ParseItems(ToksItems(a.items) + ([a.close] + rest)) == OkList(StripItems(a.items), rest)
    decreases a, 2
  {
    var end := [a.close] + rest;
    if a.items.SNone? {
      assert ToksItems(a.items) + end == end;
      assert end[1..] == rest;
    } else {
      var SMore(sep, head, tail) := a.items;
      var after := ToksItems(tail) + end;
      assert ToksItems(a.items) + end == Toks(head) + after;
      StartsWithFirst(head);
      AfterItem(head, tail, a.close, rest);
      ReadsFully(head, 0, after);
      ReadsMore(tail, [Strip(head)], a.close, rest);
    }
  }

  /** What follows an item is a comma or the closer; neither extends an expression. */
  lemma {:induction false} AfterItem(head: Syn, tail: SItems, close: Token, rest: seq<Token>)
    requires Separated(tail) && close.mark.RParen?
    ensures var after := ToksItems(tail) + ([close] + rest);
            !Continues(head, after) && !Extends(after, 0)
            && (tail.SMore? ==> after[0] == tail.sep[0])
            && (tail.SMore? ==> after[1..] == Toks(tail.head) + (ToksItems(tail.tail) + ([close] + rest)))
            && (tail.SNone? ==> after == [close] + rest)
  {
    var after := ToksItems(tail) + ([close] + rest);
    if tail.SMore? {
      assert after == tail.sep + (Toks(tail.head) + (ToksItems(tail.tail) + ([close] + rest)));
    }
  }

  lemma {:induction false} ReadsMore(l: SItems, acc: seq<Node>, close: Token, rest: seq<Token>)
    requires Separated(l) && WFItems(l) && FitsItems(l) && close.mark.RParen?
    ensures ParseMore(acc, ToksItems(l) + ([close] + rest)) == OkList(acc + StripItems(l), rest)
    decreases l, 1
  {
    var ts := ToksItems(l) + ([close] + rest);
    match l
    case SNone =>
      assert ts == [close] + rest;
      assert ts[1..] == rest;
      assert acc + StripItems(l) == acc;
    case SMore(sep, head, tail) =>
      AfterItem(head, l, close, rest);
      AfterItem(head, tail, close, rest);
      ReadsFully(head, 0, ToksItems(tail) + ([close] + rest));
      ReadsMore(tail, acc + [Strip(head)], close, rest);
      assert acc + [Strip(head)] + StripItems(tail) == acc + StripItems(l);
  }
}

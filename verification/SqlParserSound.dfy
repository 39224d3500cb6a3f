/** Soundness: whatever the parser accepts is the token sequence of a well-formed concrete tree. */
module SqlParserSound {
  import opened Basics
  import opened SqlNumbers
  import opened SqlTokens
  import opened SqlSyntax
  import opened SqlGrammar
  import opened SqlParserComplete

  /** `s` is a concrete tree for what a parsing function made of `ts`. */
  predicate Explains(s: Syn, p: nat, ts: seq<Token>, r: Parse) {
    r.Ok? && WF(s) && Fits(s, p) && Strip(s) == r.node && ts == Toks(s) + r.rest && !Continues(s, r.rest)
  }

  predicate ExplainsUnary(s: Syn, ts: seq<Token>, r: Parse) {
    r.Ok? && WF(s) && IsUnary(s) && FitsUnary(s) && Strip(s) == r.node && ts == Toks(s) + r.rest
        && !Continues(s, r.rest)
  }

  predicate ExplainsList(a: SArgs, ts: seq<Token>, r: ParseList) {
    && r.OkList? && ArgsShape(a) && WFItems(a.items) && FitsItems(a.items) && StripItems(a.items) == r.nodes
    && ts == ToksItems(a.items) + ([a.close] + r.tail)
  }

  lemma Uncons(ts: seq<Token>)
    requires |ts| > 0
    ensures ts == [ts[0]] + ts[1..]
  {
  }

  lemma {:induction false} SoundExpr(ts: seq<Token>, p: nat) returns (s: Syn)
    requires ParseExpr(ts, p).Ok?
    ensures Explains(s, p, ts, ParseExpr(ts, p)) && !Extends(ParseExpr(ts, p).rest, p)
    decreases |ts|, 3
  {
    var l := ParsePrefix(ts);
    var s0 := SoundPrefix(ts, p);
    s := SoundLoop(s0, l.rest, p);
  }

  lemma {:induction false} SoundPrefix(ts: seq<Token>, p: nat) returns (s: Syn)
    requires ParsePrefix(ts).Ok?
    ensures Explains(s, p, ts, ParsePrefix(ts))
    decreases |ts|, 2
  {
    if |ts| > 0 && ts[0].IsWord(NOT) {
      var x := SoundExpr(ts[1..], 3);
      s := SNot(ts[0], x);
      NotExplains(ts, p, x, ParseExpr(ts[1..], 3));
    } else {
      s := SoundUnary(ts);
      StartsWithFirst(s);
    }
  }

  lemma NotExplains(ts: seq<Token>, p: nat, x: Syn, r: Parse)
    requires |ts| > 0 && ts[0].IsWord(NOT) && Explains(x, 3, ts[1..], r) && !Extends(r.rest, 3)
    ensures Explains(SNot(ts[0], x), p, ts, Ok(Not(r.node), r.rest))
  {
    Uncons(ts);
    CatAssoc([ts[0]], Toks(x), r.rest);
  }

  lemma {:induction false} SoundUnary(ts: seq<Token>) returns (s: Syn)
    requires ParseUnary(ts).Ok?
    ensures ExplainsUnary(s, ts, ParseUnary(ts))
    decreases |ts|, 1
  {
    if |ts| > 0 && ts[0].kind == OpTok(Sub) {
      var x := SoundUnary(ts[1..]);
      s := SNeg(ts[0], x);
      NegExplains(ts, x, ParseUnary(ts[1..]));
    } else {
      s := SoundPrimary(ts);
    }
  }

  lemma NegExplains(ts: seq<Token>, x: Syn, r: Parse)
    requires |ts| > 0 && ts[0].kind == OpTok(Sub) && ExplainsUnary(x, ts[1..], r)
    ensures ExplainsUnary(SNeg(ts[0], x), ts, Ok(Neg(r.node), r.rest))
  {
    Uncons(ts);
    CatAssoc([ts[0]], Toks(x), r.rest);
  }

  lemma {:induction false} SoundPrimary(ts: seq<Token>) returns (s: Syn)
    requires ParsePrimary(ts).Ok?
    ensures ExplainsUnary(s, ts, ParsePrimary(ts))
    decreases |ts|, 0
  {
    Uncons(ts);
    var t := ts[0];
    if t.kind.NumTok? {
      s := SNum(t);
    } else if t.kind.StrTok? {
      s := SStr(t);
    } else if t.kind == OpTok(Mul) {
      s := SStar(t);
    } else if t.mark.LParen? {
      s := SoundParen(ts);
    } else if t.upper.INTERVAL? {
      s := SInterval(t, ts[1], ts[2]);
      Uncons(ts[1..]);
      Uncons(ts[2..]);
      assert ts == [t, ts[1], ts[2]] + ts[3..];
      assert ts[1..][2..] == ts[3..];
    } else if |ts| > 1 && ts[1].mark.LParen? {
      s := SoundCall(ts);
    } else {
      s := SCol(t);
    }
  }

  lemma {:induction false} SoundParen(ts: seq<Token>) returns (s: Syn)
    requires |ts| > 0 && OpenTok(ts[0]) && ParseGroup(ts[1..]).Ok?
    ensures ExplainsUnary(s, ts, ParseGroup(ts[1..]))
    decreases |ts| - 1, 4
  {
    var inner := ParseExpr(ts[1..], 0);
    var x := SoundExpr(ts[1..], 0);
    s := SParen(ts[0], x, inner.rest[0]);
    Uncons(ts);
    Uncons(inner.rest);
    var rest := inner.rest[1..];
    CatAssoc([ts[0]], Toks(x) + [inner.rest[0]], rest);
    CatAssoc(Toks(x), [inner.rest[0]], rest);
  }

  lemma {:induction false} SoundCall(ts: seq<Token>) returns (s: Syn)
    requires |ts| > 1 && NameTok(ts[0]) && ts[1].mark.LParen? && ParseCall(ts[0].value, ts[2..]).Ok?
    ensures ExplainsUnary(s, ts, ParseCall(ts[0].value, ts[2..]))
    decreases |ts| - 2, 9
  {
    var first := ParseArgs(ts[2..]);
    var a := SoundArgs(ts[1], ts[2..]);
    ArgsTokens(a, ts[1..], first.tail);
    Uncons(ts);
    if |first.tail| > 0 && first.tail[0].mark.LParen? {
      var b := SoundArgs(first.tail[0], first.tail[1..]);
      ArgsTokens(b, first.tail, ParseArgs(first.tail[1..]).tail);
      s := ParamCallTree(ts, a, b, first.tail, ParseArgs(first.tail[1..]).tail);
    } else {
      s := SCall(ts[0], a);
      CatAssoc([ts[0]], Wrap(a, ToksItems(a.items)), first.tail);
    }
  }

  lemma ParamCallTree(ts: seq<Token>, a: SArgs, b: SArgs, mid: seq<Token>, rest: seq<Token>) returns (s: Syn)
    requires |ts| > 0 && NameTok(ts[0]) && ArgsShape(a) && WFItems(a.items) && ArgsShape(b) && WFItems(b.items)
    requires CallArgs(a) && FitsItems(a.items) && CallArgs(b) && FitsItems(b.items)
    requires ts == [ts[0]] + (Wrap(a, ToksItems(a.items)) + mid) && mid == Wrap(b, ToksItems(b.items)) + rest
    ensures ExplainsUnary(s, ts,
              Ok(Func(ts[0].value, StripItems(b.items), WithParams(StripItems(a.items)), false), rest))
  {
    s := SParamCall(ts[0], a, b);
    var first, second := Wrap(a, ToksItems(a.items)), Wrap(b, ToksItems(b.items));
    CatAssoc(first, second, rest);
    CatAssoc([ts[0]], first + second, rest);
  }

  lemma ArgsTokens(a: SArgs, ts: seq<Token>, rest: seq<Token>)
    requires |ts| > 0 && a.open == ts[0] && ts[1..] == a.distinct + (ToksItems(a.items) + ([a.close] + rest))
    ensures ts == Wrap(a, ToksItems(a.items)) + rest
  {
  }

  lemma {:induction false} SoundArgs(open: Token, ts: seq<Token>) returns (a: SArgs)
    requires open.mark.LParen? && ParseArgs(ts).OkList?
    ensures ArgsShape(a) && WFItems(a.items) && FitsItems(a.items) && CallArgs(a) && a.open == open
    ensures StripItems(a.items) == ParseArgs(ts).nodes && (a.distinct != []) == (|ts| > 0 && ts[0].IsWord(DISTINCT))
    ensures ts == a.distinct + (ToksItems(a.items) + ([a.close] + ParseArgs(ts).tail))
    decreases |ts|, 8
  {
    if |ts| > 0 && ts[0].IsWord(DISTINCT) {
      a := SoundItems(open, ts[1..]);
      a := a.(distinct := [ts[0]]);
      Uncons(ts);
    } else {
      a := SoundItems(open, ts);
      assert [] + ts == ts;
      if a.items.SMore? {
        StartsWithFirst(a.items.head);
      }
    }
  }

  lemma {:induction false} SoundItems(open: Token, ts: seq<Token>) returns (a: SArgs)
    requires open.mark.LParen? && ParseItems(ts).OkList?
    ensures ExplainsList(a, ts, ParseItems(ts)) && a.open == open && a.distinct == []
    decreases |ts|, 7
  {
    if |ts| > 0 && ts[0].mark.RParen? {
      a := SArgs(open, [], SNone, ts[0]);
      Uncons(ts);
      assert [] + ([ts[0]] + ts[1..]) == ts;
    } else {
      var first := ParseExpr(ts, 0);
      var head := SoundExpr(ts, 0);
      var tail, close := SoundMore([first.node], first.rest);
      a := SArgs(open, [], SMore([], head, tail), close);
      StartsWithFirst(head);
      var end := [close] + ParseItems(ts).tail;
      CatAssoc(Toks(head), ToksItems(tail), end);
      assert [] + (Toks(head) + ToksItems(tail)) == Toks(head) + ToksItems(tail);
    }
  }

  lemma {:induction false} SoundMore(acc: seq<Node>, ts: seq<Token>) returns (l: SItems, close: Token)
    requires ParseMore(acc, ts).OkList?
    ensures Separated(l) && WFItems(l) && FitsItems(l) && close.mark.RParen?
    ensures acc + StripItems(l) == ParseMore(acc, ts).nodes
    ensures ts == ToksItems(l) + ([close] + ParseMore(acc, ts).tail)
    decreases |ts|, 7
  {
    Uncons(ts);
    if ts[0].mark.Comma? {
      var item := ParseExpr(ts[1..], 0);
      var head := SoundExpr(ts[1..], 0);
      var tail;
      tail, close := SoundMore(acc + [item.node], item.rest);
      l := SMore([ts[0]], head, tail);
      MoreNodes(acc, ts[0], head, tail);
      MoreTokens(ts[0], head, tail, [close] + ParseMore(acc, ts).tail);
    } else {
      l, close := SNone, ts[0];
      assert [] + ([close] + ts[1..]) == ts;
      assert acc + [] == acc;
    }
  }

  lemma MoreNodes(acc: seq<Node>, comma: Token, head: Syn, tail: SItems)
    requires WF(head) && WFItems(tail)
    ensures acc + [Strip(head)] + StripItems(tail) == acc + StripItems(SMore([comma], head, tail))
  {
  }

  lemma MoreTokens(comma: Token, head: Syn, tail: SItems, end: seq<Token>)
    ensures ToksItems(SMore([comma], head, tail)) + end == [comma] + (Toks(head) + (ToksItems(tail) + end))
  {
    CatAssoc(Toks(head), ToksItems(tail), end);
    CatAssoc([comma], Toks(head) + ToksItems(tail), end);
  }

  /** Each turn of the loop wraps the tree built so far. */
  lemma {:induction false} SoundLoop(s0: Syn, ts: seq<Token>, p: nat) returns (s: Syn)
    requires WF(s0) && Fits(s0, p) && !Continues(s0, ts) && ParseLoop(Strip(s0), ts, p).Ok?
    ensures Explains(s, p, Toks(s0) + ts, ParseLoop(Strip(s0), ts, p)) && !Extends(ParseLoop(Strip(s0), ts, p).rest, p)
    decreases |ts|, 10
  {
    if !Extends(ts, p) {
      s := s0;
    } else if p <= 3 && Postfix(ts) {
      var r := ParsePredicate(Strip(s0), ts, false);
      var s1 := SoundPredicate(s0, [], ts, p);
      assert [] + ts == ts;
      s := SoundLoop(s1, r.rest, p);
    } else if p <= 3 && NegatedPostfix(ts) {
      var r := ParsePredicate(Strip(s0), ts[1..], true);
      Uncons(ts);
      var s1 := SoundPredicate(s0, [ts[0]], ts[1..], p);
      s := SoundLoop(s1, r.rest, p);
    } else {
      var right := ParseExpr(ts[1..], InfixOp(ts[0]).value.Prec() + 1);
      var s1 := SoundInfix(s0, ts, p);
      s := SoundLoop(s1, right.rest, p);
    }
  }

  lemma {:induction false} SoundInfix(s0: Syn, ts: seq<Token>, p: nat) returns (s: Syn)
    requires WF(s0) && Fits(s0, p) && !Continues(s0, ts) && |ts| > 0 && InfixOp(ts[0]).Some?
    requires InfixOp(ts[0]).value.Prec() >= p
    requires ParseExpr(ts[1..], InfixOp(ts[0]).value.Prec() + 1).Ok?
    ensures var op := InfixOp(ts[0]).value;
            var right := ParseExpr(ts[1..], op.Prec() + 1);
            Explains(s, p, Toks(s0) + ts, Ok(Binary(op, Strip(s0), right.node), right.rest))
    decreases |ts|, 9
  {
    var q := InfixOp(ts[0]).value.Prec() + 1;
    var rest := ParseExpr(ts[1..], q).rest;
    var r := SoundExpr(ts[1..], q);
    s := SBin(s0, ts[0], r);
    Uncons(ts);
    CatAssoc([ts[0]], Toks(r), rest);
    CatAssoc(Toks(s0), [ts[0]] + Toks(r), rest);
    assert Trail(s) == Min(q, Trail(r));
  }

  lemma {:induction false} SoundPredicate(s0: Syn, no: seq<Token>, ts: seq<Token>, p: nat) returns (s: Syn)
    requires WF(s0) && Fits(s0, p) && p <= 3 && NoToks(no) && Postfix(ts) && (no != [] ==> !ts[0].upper.IS?)
    requires !Continues(s0, no + ts) && ParsePredicate(Strip(s0), ts, no != []).Ok?
    ensures Explains(s, p, Toks(s0) + (no + ts), ParsePredicate(Strip(s0), ts, no != []))
    decreases |ts|, 9
  {
    assert !Continues(s0, no + [ts[0]]);
    if ts[0].upper.IN? {
      s := SoundIn(s0, no, ts, p);
    } else if ts[0].upper.LIKE? {
      s := SoundLike(s0, no, ts, p);
    } else if ts[0].upper.BETWEEN? {
      s := SoundBetween(s0, no, ts, p);
    } else {
      assert no + ts == ts && no + [ts[0]] == [ts[0]];
      s := SoundIsNull(s0, ts, p);
    }
  }

  lemma {:induction false} SoundIn(s0: Syn, no: seq<Token>, ts: seq<Token>, p: nat) returns (s: Syn)
    requires WF(s0) && Fits(s0, p) && p <= 3 && NoToks(no) && |ts| > 0 && ts[0].IsWord(IN)
    requires !Continues(s0, no + [ts[0]]) && ParsePredicate(Strip(s0), ts, no != []).Ok?
    ensures Explains(s, p, Toks(s0) + (no + ts), ParsePredicate(Strip(s0), ts, no != []))
    decreases |ts|, 8
  {
    var rest := ParsePredicate(Strip(s0), ts, no != []).rest;
    var a := SoundItems(ts[1], ts[2..]);
    assert ts[1..][1..] == ts[2..];
    assert [] + (ToksItems(a.items) + ([a.close] + rest)) == ToksItems(a.items) + ([a.close] + rest);
    ArgsTokens(a, ts[1..], rest);
    s := InTree(s0, no, ts, p, a, rest);
  }

  lemma InTree(s0: Syn, no: seq<Token>, ts: seq<Token>, p: nat, a: SArgs, rest: seq<Token>) returns (s: Syn)
    requires WF(s0) && Fits(s0, p) && p <= 3 && NoToks(no) && |ts| > 0 && ts[0].IsWord(IN)
    requires !Continues(s0, no + [ts[0]])
    requires ArgsShape(a) && WFItems(a.items) && FitsItems(a.items) && a.distinct == []
    requires ts[1..] == Wrap(a, ToksItems(a.items)) + rest
    ensures Explains(s, p, Toks(s0) + (no + ts), Ok(In(Strip(s0), StripItems(a.items), no != []), rest))
  {
    s := SIn(s0, no, ts[0], a);
    Uncons(ts);
    PredicateTokens(s0, no, ts[0], Wrap(a, ToksItems(a.items)), rest);
  }

  lemma {:induction false} SoundLike(s0: Syn, no: seq<Token>, ts: seq<Token>, p: nat) returns (s: Syn)
    requires WF(s0) && Fits(s0, p) && p <= 3 && NoToks(no) && |ts| > 0 && ts[0].IsWord(LIKE)
    requires !Continues(s0, no + [ts[0]]) && ParsePredicate(Strip(s0), ts, no != []).Ok?
    ensures Explains(s, p, Toks(s0) + (no + ts), ParsePredicate(Strip(s0), ts, no != []))
    decreases |ts|, 8
  {
    var rest := ParsePredicate(Strip(s0), ts, no != []).rest;
    var x := SoundExpr(ts[1..], 4);
    s := SLike(s0, no, ts[0], x);
    Uncons(ts);
    PredicateTokens(s0, no, ts[0], Toks(x), rest);
    assert Trail(s) == Min(4, Trail(x));
  }

  lemma PredicateTokens(s0: Syn, no: seq<Token>, kw: Token, body: seq<Token>, rest: seq<Token>)
    ensures (Toks(s0) + (no + ([kw] + body))) + rest == Toks(s0) + (no + ([kw] + (body + rest)))
  {
  }

  lemma {:induction false} SoundBetween(s0: Syn, no: seq<Token>, ts: seq<Token>, p: nat) returns (s: Syn)
    requires WF(s0) && Fits(s0, p) && p <= 3 && NoToks(no) && |ts| > 0 && ts[0].IsWord(BETWEEN)
    requires !Continues(s0, no + [ts[0]]) && ParsePredicate(Strip(s0), ts, no != []).Ok?
    ensures Explains(s, p, Toks(s0) + (no + ts), ParsePredicate(Strip(s0), ts, no != []))
    decreases |ts|, 8
  {
    var low := ParseExpr(ts[1..], 4);
    var x := SoundExpr(ts[1..], 4);
    var rest := ParseExpr(low.rest[1..], 4).rest;
    var y := SoundExpr(low.rest[1..], 4);
    assert ParsePredicate(Strip(s0), ts, no != []) == Ok(Between(Strip(s0), Strip(x), Strip(y), no != []), rest);
    s := BetweenTree(s0, no, ts, p, x, low.rest, y, rest);
  }

  lemma BetweenTree(s0: Syn, no: seq<Token>, ts: seq<Token>, p: nat, x: Syn, mid: seq<Token>, y: Syn,
                    rest: seq<Token>) returns (s: Syn)
    requires WF(s0) && Fits(s0, p) && p <= 3 && NoToks(no) && |ts| > 0 && ts[0].IsWord(BETWEEN)
    requires !Continues(s0, no + [ts[0]])
    requires |mid| > 0 && mid[0].IsWord(AND) && WF(x) && Fits(x, 4) && ts[1..] == Toks(x) + mid && !Continues(x, mid)
    requires WF(y) && Fits(y, 4) && mid[1..] == Toks(y) + rest && !Continues(y, rest) && !Extends(rest, 4)
    ensures Explains(s, p, Toks(s0) + (no + ts), Ok(Between(Strip(s0), Strip(x), Strip(y), no != []), rest))
  {
    s := SBetween(s0, no, ts[0], x, mid[0], y);
    BetweenTreeTokens(s, ts, mid, rest);
    BetweenEnds(s, rest);
    Uncons(mid);
    InfixLooksAtOne(x, mid[0], mid[1..]);
    BetweenFits(s, p);
  }

  lemma BetweenFits(s: Syn, p: nat)
    requires s.SBetween? && WF(s.left) && Fits(s.left, p) && p <= 3 && NoToks(s.no) && s.kw.IsWord(BETWEEN)
    requires !Continues(s.left, s.no + [s.kw]) && !Continues(s.low, [s.mid]) && s.mid.IsWord(AND)
    requires WF(s.low) && Fits(s.low, 4) && WF(s.right) && Fits(s.right, 4)
    ensures WF(s) && Fits(s, p) && Strip(s) == Between(Strip(s.left), Strip(s.low), Strip(s.right), s.no != [])
  {
  }

  lemma BetweenEnds(s: Syn, rest: seq<Token>)
    requires s.SBetween? && !Continues(s.right, rest) && !Extends(rest, 4)
    ensures !Continues(s, rest)
  {
    assert Trail(s) == Min(4, Trail(s.right));
  }

  lemma BetweenTreeTokens(s: Syn, ts: seq<Token>, mid: seq<Token>, rest: seq<Token>)
    requires s.SBetween? && |ts| > 0 && ts[0] == s.kw && ts[1..] == Toks(s.low) + mid
    requires |mid| > 0 && mid[0] == s.mid && mid[1..] == Toks(s.right) + rest
    ensures Toks(s.left) + (s.no + ts) == Toks(s) + rest
  {
  }

  lemma {:induction false} SoundIsNull(s0: Syn, ts: seq<Token>, p: nat) returns (s: Syn)
    requires WF(s0) && Fits(s0, p) && p <= 3 && |ts| > 0 && ts[0].IsWord(IS)
    requires !Continues(s0, [ts[0]]) && ParseIsNull(Strip(s0), ts[1..]).Ok?
    ensures Explains(s, p, Toks(s0) + ts, ParseIsNull(Strip(s0), ts[1..]))
  {
    var rest := ParseIsNull(Strip(s0), ts[1..]).rest;
    var no: seq<Token> := if ts[1].IsWord(NOT) then [ts[1]] else [];
    var null_ := if ts[1].IsWord(NOT) then ts[2] else ts[1];
    assert ts == [ts[0]] + ((no + [null_]) + rest);
    s := IsNullTree(s0, ts[0], no, null_, rest, p);
  }

  lemma IsNullTree(s0: Syn, kw: Token, no: seq<Token>, null_: Token, rest: seq<Token>, p: nat) returns (s: Syn)
    requires WF(s0) && Fits(s0, p) && p <= 3 && kw.IsWord(IS) && !Continues(s0, [kw])
    requires NoToks(no) && null_.IsWord(NULL)
    ensures Explains(s, p, Toks(s0) + ([kw] + ((no + [null_]) + rest)), Ok(IsNull(Strip(s0), no != []), rest))
  {
    s := SIsNull(s0, kw, no, null_);
    IsNullTokens(s, rest);
  }

  lemma IsNullTokens(s: Syn, rest: seq<Token>)
    requires s.SIsNull?
    ensures Toks(s.left) + ([s.kw] + ((s.no + [s.null_]) + rest)) == Toks(s) + rest
  {
    CatAssoc([s.kw], s.no + [s.null_], rest);
    CatAssoc(Toks(s.left), [s.kw] + (s.no + [s.null_]), rest);
  }

  /** The parser accepts exactly the grammar: it returns `node` and leaves `rest` if and only if the tokens
      it consumed are those of a well-formed concrete tree for `node` that the rest cannot extend. */
  lemma ParserExact(ts: seq<Token>, p: nat, node: Node, rest: seq<Token>)
    ensures ParseExpr(ts, p) == Ok(node, rest) <==>
            exists s :: Explains(s, p, ts, Ok(node, rest)) && !Extends(rest, p)
  {
    if ParseExpr(ts, p) == Ok(node, rest) {
      var s := SoundExpr(ts, p);
    }
    forall s | Explains(s, p, ts, Ok(node, rest)) && !Extends(rest, p)
      ensures ParseExpr(ts, p) == Ok(node, rest)
    {
      ReadsFully(s, p, rest);
    }
  }

  /** The grammar is unambiguous: two readings of one token sequence strip to the same tree. */
  lemma Unambiguous(s: Syn, t: Syn)
    requires WF(s) && WF(t) && Fits(s, 0) && Fits(t, 0) && Toks(s) == Toks(t)
    ensures Strip(s) == Strip(t)
  {
    ReadsFully(s, 0, []);
    ReadsFully(t, 0, []);
    assert Toks(s) + [] == Toks(t) + [];
  }
}

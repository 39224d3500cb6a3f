/** What binds tighter than what, stated by the spelling of the operators. */
module SqlPrecedence {
  import opened Basics
  import opened SqlNumbers
  import opened SqlTokens
  import opened SqlSyntax
  import opened SqlGrammar
  import opened SqlParserComplete
  import opened SqlPrinter

  /** OR, AND, comparison, sum, product: the later the tighter. */
  function Binds(spelling: string): nat {
    if spelling == "OR" then 1
    else if spelling == "AND" then 2
    else if spelling in {"=", "!=", "<>", "<", "<=", ">", ">="} then 3
    else if spelling in {"+", "-"} then 4
    else if spelling in {"*", "/", "%"} then 5
    else 0
  }

  lemma PrecIs(op: BinOp)
    ensures op.Prec() == Binds(op.Spelling())
  {
  }

  /** Operands that are one token: strings. */
  function Atom(text: string): Token {
    MakeToken(StrTok, text)
  }

  lemma AtomPrints(text: string, p: nat)
    ensures Prints(SStr(Atom(text)), Str(text), p) && Toks(SStr(Atom(text))) == [Atom(text)]
  {
    AtomTree(SStr(Atom(text)), Str(text), p);
  }

  function OpTree(l: Syn, op: BinOp, r: Syn): Syn {
    SBin(l, InfixToken(op), r)
  }

  function LikeSyn(l: Syn, r: Syn): Syn {
    SLike(l, [], KwToken(LIKE), r)
  }

  /** Two operands and an operator between them. */
  function Pair(x: string, op: BinOp, y: string): Syn {
    OpTree(SStr(Atom(x)), op, SStr(Atom(y)))
  }

  lemma PairPrints(x: string, op: BinOp, y: string, p: nat)
    requires p <= op.Prec()
    ensures Prints(Pair(x, op, y), Binary(op, Str(x), Str(y)), p)
    ensures Toks(Pair(x, op, y)) == [Atom(x), InfixToken(op), Atom(y)]
  {
    AtomPrints(x, op.Prec());
    AtomPrints(y, op.Prec() + 1);
    BinaryTree(Pair(x, op, y), Str(x), Str(y), op, p);
  }

  lemma LikePrints(x: string, y: string, p: nat)
    requires p <= 3
    ensures Prints(LikeSyn(SStr(Atom(x)), SStr(Atom(y))), Like(Str(x), Str(y), false), p)
    ensures Toks(LikeSyn(SStr(Atom(x)), SStr(Atom(y)))) == [Atom(x), KwToken(LIKE), Atom(y)]
  {
    AtomPrints(x, 3);
    AtomPrints(y, 4);
    LikeTree(LikeSyn(SStr(Atom(x)), SStr(Atom(y))), Str(x), Str(y), p);
  }

  lemma SplitToks(l: Syn, op: BinOp, r: Syn)
    ensures Toks(OpTree(l, op, r)) == Toks(l) + ([InfixToken(op)] + Toks(r))
    ensures Toks(LikeSyn(l, r)) == Toks(l) + ([KwToken(LIKE)] + Toks(r))
    ensures Toks(SNot(KwToken(NOT), r)) == [KwToken(NOT)] + Toks(r)
  {
    assert [] + ([KwToken(LIKE)] + Toks(r)) == [KwToken(LIKE)] + Toks(r);
  }

  lemma ReadsPrinted(s: Syn, e: Node, ts: seq<Token>)
    requires Prints(s, e, 0) && Toks(s) == ts
    ensures ParseExpr(ts, 0) == Ok(e, [])
  {
    ReadsFully(s, 0, []);
    assert ts + [] == ts;
  }

  lemma InfixReads(l: Syn, left: Node, op: BinOp, r: Syn, right: Node, ts: seq<Token>)
    requires Prints(l, left, op.Prec()) && Prints(r, right, op.Prec() + 1)
    requires ts == Toks(l) + ([InfixToken(op)] + Toks(r))
    ensures ParseExpr(ts, 0) == Ok(Binary(op, left, right), [])
  {
    BinaryTree(OpTree(l, op, r), left, right, op, 0);
    SplitToks(l, op, r);
    ReadsPrinted(OpTree(l, op, r), Binary(op, left, right), ts);
  }

  lemma LikeReads(l: Syn, left: Node, r: Syn, right: Node, ts: seq<Token>)
    requires Prints(l, left, 3) && Prints(r, right, 4) && ts == Toks(l) + ([KwToken(LIKE)] + Toks(r))
    ensures ParseExpr(ts, 0) == Ok(Like(left, right, false), [])
  {
    LikeTree(LikeSyn(l, r), left, right, 0);
    SplitToks(l, Or, r);
    ReadsPrinted(LikeSyn(l, r), Like(left, right, false), ts);
  }

  // ---- Two operators ----

  lemma RightFirst(x: string, o1: BinOp, y: string, o2: BinOp, z: string, ts: seq<Token>)
    requires o2.Prec() > o1.Prec()
    requires ts == [Atom(x), InfixToken(o1), Atom(y), InfixToken(o2), Atom(z)]
    ensures ParseExpr(ts, 0) == Ok(Binary(o1, Str(x), Binary(o2, Str(y), Str(z))), [])
  {
    AtomPrints(x, o1.Prec());
    PairPrints(y, o2, z, o1.Prec() + 1);
    InfixReads(SStr(Atom(x)), Str(x), o1, Pair(y, o2, z), Binary(o2, Str(y), Str(z)), ts);
  }

  lemma LeftFirst(x: string, o1: BinOp, y: string, o2: BinOp, z: string, ts: seq<Token>)
    requires o2.Prec() <= o1.Prec()
    requires ts == [Atom(x), InfixToken(o1), Atom(y), InfixToken(o2), Atom(z)]
    ensures ParseExpr(ts, 0) == Ok(Binary(o2, Binary(o1, Str(x), Str(y)), Str(z)), [])
  {
    PairPrints(x, o1, y, o2.Prec());
    AtomPrints(z, o2.Prec() + 1);
    InfixReads(Pair(x, o1, y), Binary(o1, Str(x), Str(y)), o2, SStr(Atom(z)), Str(z), ts);
  }

  /** Of two operators the tighter takes its operands first, and of two that bind alike the left one. */
  lemma TwoOperators(x: string, o1: BinOp, y: string, o2: BinOp, z: string, ts: seq<Token>)
    requires ts == [Atom(x), InfixToken(o1), Atom(y), InfixToken(o2), Atom(z)]
    ensures ParseExpr(ts, 0) ==
              Ok(if Binds(o2.Spelling()) > Binds(o1.Spelling()) then Binary(o1, Str(x), Binary(o2, Str(y), Str(z)))
                 else Binary(o2, Binary(o1, Str(x), Str(y)), Str(z)), [])
  {
    PrecIs(o1);
    PrecIs(o2);
    if o2.Prec() > o1.Prec() {
      RightFirst(x, o1, y, o2, z, ts);
    } else {
      LeftFirst(x, o1, y, o2, z, ts);
    }
  }

  // ---- NOT ----

  lemma NotPrints(x: Syn, e: Node, p: nat)
    requires Prints(x, e, 3) && p <= 2
    ensures Prints(SNot(KwToken(NOT), x), Not(e), p) && Toks(SNot(KwToken(NOT), x)) == [KwToken(NOT)] + Toks(x)
  {
    NotTree(e, x, p);
  }

  lemma NotOver(x: string, op: BinOp, y: string, ts: seq<Token>)
    requires op.Prec() >= 3
    requires ts == [KwToken(NOT), Atom(x), InfixToken(op), Atom(y)]
    ensures ParseExpr(ts, 0) == Ok(Not(Binary(op, Str(x), Str(y))), [])
  {
    PairPrints(x, op, y, 3);
    NotPrints(Pair(x, op, y), Binary(op, Str(x), Str(y)), 0);
    ReadsPrinted(SNot(KwToken(NOT), Pair(x, op, y)), Not(Binary(op, Str(x), Str(y))), ts);
  }

  lemma NotBelow(x: string, op: BinOp, y: string, ts: seq<Token>)
    requires op.Prec() < 3
    requires ts == [KwToken(NOT), Atom(x), InfixToken(op), Atom(y)]
    ensures ParseExpr(ts, 0) == Ok(Binary(op, Not(Str(x)), Str(y)), [])
  {
    AtomPrints(x, 3);
    NotPrints(SStr(Atom(x)), Str(x), op.Prec());
    AtomPrints(y, op.Prec() + 1);
    InfixReads(SNot(KwToken(NOT), SStr(Atom(x))), Not(Str(x)), op, SStr(Atom(y)), Str(y), ts);
  }

  /** NOT takes a comparison and what binds tighter for its operand, but leaves AND and OR. */
  lemma NotThenOperator(x: string, op: BinOp, y: string, ts: seq<Token>)
    requires ts == [KwToken(NOT), Atom(x), InfixToken(op), Atom(y)]
    ensures ParseExpr(ts, 0) ==
              Ok(if Binds(op.Spelling()) >= 3 then Not(Binary(op, Str(x), Str(y)))
                 else Binary(op, Not(Str(x)), Str(y)), [])
  {
    PrecIs(op);
    if op.Prec() >= 3 {
      NotOver(x, op, y, ts);
    } else {
      NotBelow(x, op, y, ts);
    }
  }

  // ---- Predicates ----

  lemma LikeOver(x: string, op: BinOp, y: string, z: string, ts: seq<Token>)
    requires op.Prec() >= 3
    requires ts == [Atom(x), InfixToken(op), Atom(y), KwToken(LIKE), Atom(z)]
    ensures ParseExpr(ts, 0) == Ok(Like(Binary(op, Str(x), Str(y)), Str(z), false), [])
  {
    PairPrints(x, op, y, 3);
    AtomPrints(z, 4);
    LikeReads(Pair(x, op, y), Binary(op, Str(x), Str(y)), SStr(Atom(z)), Str(z), ts);
  }

  lemma LikeBelow(x: string, op: BinOp, y: string, z: string, ts: seq<Token>)
    requires op.Prec() < 3
    requires ts == [Atom(x), InfixToken(op), Atom(y), KwToken(LIKE), Atom(z)]
    ensures ParseExpr(ts, 0) == Ok(Binary(op, Str(x), Like(Str(y), Str(z), false)), [])
  {
    AtomPrints(x, op.Prec());
    LikePrints(y, z, op.Prec() + 1);
    InfixReads(SStr(Atom(x)), Str(x), op, LikeSyn(SStr(Atom(y)), SStr(Atom(z))), Like(Str(y), Str(z), false), ts);
  }

  /** LIKE binds as a comparison does: what binds as tight or tighter on its left comes first ... */
  lemma OperatorThenLike(x: string, op: BinOp, y: string, z: string, ts: seq<Token>)
    requires ts == [Atom(x), InfixToken(op), Atom(y), KwToken(LIKE), Atom(z)]
    ensures ParseExpr(ts, 0) ==
              Ok(if Binds(op.Spelling()) >= 3 then Like(Binary(op, Str(x), Str(y)), Str(z), false)
                 else Binary(op, Str(x), Like(Str(y), Str(z), false)), [])
  {
    PrecIs(op);
    if op.Prec() >= 3 {
      LikeOver(x, op, y, z, ts);
    } else {
      LikeBelow(x, op, y, z, ts);
    }
  }

  lemma Pattern(x: string, op: BinOp, y: string, z: string, ts: seq<Token>)
    requires op.Prec() >= 4
    requires ts == [Atom(x), KwToken(LIKE), Atom(y), InfixToken(op), Atom(z)]
    ensures ParseExpr(ts, 0) == Ok(Like(Str(x), Binary(op, Str(y), Str(z)), false), [])
  {
    AtomPrints(x, 3);
    PairPrints(y, op, z, 4);
    LikeReads(SStr(Atom(x)), Str(x), Pair(y, op, z), Binary(op, Str(y), Str(z)), ts);
  }

  lemma AfterLike(x: string, op: BinOp, y: string, z: string, ts: seq<Token>)
    requires op.Prec() < 4
    requires ts == [Atom(x), KwToken(LIKE), Atom(y), InfixToken(op), Atom(z)]
    ensures ParseExpr(ts, 0) == Ok(Binary(op, Like(Str(x), Str(y), false), Str(z)), [])
  {
    LikePrints(x, y, op.Prec());
    AtomPrints(z, op.Prec() + 1);
    InfixReads(LikeSyn(SStr(Atom(x)), SStr(Atom(y))), Like(Str(x), Str(y), false), op, SStr(Atom(z)), Str(z), ts);
  }

  /** ... and what binds tighter on its right. */
  lemma LikeThenOperator(x: string, op: BinOp, y: string, z: string, ts: seq<Token>)
    requires ts == [Atom(x), KwToken(LIKE), Atom(y), InfixToken(op), Atom(z)]
    ensures ParseExpr(ts, 0) ==
              Ok(if Binds(op.Spelling()) >= 4 then Like(Str(x), Binary(op, Str(y), Str(z)), false)
                 else Binary(op, Like(Str(x), Str(y), false), Str(z)), [])
  {
    PrecIs(op);
    if op.Prec() >= 4 {
      Pattern(x, op, y, z, ts);
    } else {
      AfterLike(x, op, y, z, ts);
    }
  }

  // ---- Keywords in any case ----

  /** The same text but for the case of its letters. */
  predicate SameLetters(s: string, t: string) {
    |s| == |t| && forall i :: 0 <= i < |s| ==>
      || s[i] == t[i]
      || ('a' <= s[i] <= 'z' && t[i] == s[i] - 'a' + 'A')
      || ('a' <= t[i] <= 'z' && s[i] == t[i] - 'a' + 'A')
  }

  /** Keywords and units are recognised in any case. */
  lemma KeywordsInAnyCase(w: Word, s: string)
    requires !w.Unit? && !w.Plain? && SameLetters(s, KwSpelling(w))
    ensures MakeToken(IdentTok, s).IsWord(w)
  {
    SameUpper(s, KwSpelling(w));
    KeywordUpper(w);
  }

  lemma SameUpper(s: string, t: string)
    requires SameLetters(s, t)
    ensures ToUpper(s) == ToUpper(t)
  {
  }

  lemma KeywordUpper(w: Word)
    requires !w.Unit? && !w.Plain?
    ensures ToUpper(KwSpelling(w)) == KwSpelling(w) && Classify(KwSpelling(w)) == w && |KwSpelling(w)| > 1
  {
  }
}

/** Reading the emitted text back yields the tree it was emitted from. */
module SqlReparse {
  import opened Basics
  import opened SqlNumbers
  import opened SqlTokens
  import opened SqlLexer
  import opened SqlSyntax
  import opened SqlGrammar
  import opened SqlParserComplete
  import opened SqlPrinter
  import opened SqlEmit
  import opened SqlText

  // ---- The tokens of the text are those of the concrete tree ----

  lemma ParenToks(l: Layout)
    ensures LayoutToks(Paren(l)) == [OPEN] + (LayoutToks(l) + [CLOSE])
  {
  }

  lemma InfixedToks(a: Layout, p: Piece, b: Layout, t: Token)
    requires PieceToks(p) == [t]
    ensures LayoutToks(Infixed(a, p, b)) == LayoutToks(a) + ([t] + LayoutToks(b))
  {
    var spaced := Cat(Leaf(Space), Cat(Leaf(p), Leaf(Space)));
    assert LayoutToks(Leaf(Space)) == [] && LayoutToks(Leaf(p)) == [t];
    assert LayoutToks(Cat(Leaf(p), Leaf(Space))) == [t] + [] == [t];
    assert LayoutToks(spaced) == [] + [t] == [t];
    assert LayoutToks(Cat(spaced, b)) == [t] + LayoutToks(b);
  }

  lemma NegationToks(a: Layout, negate: bool)
    ensures LayoutToks(Negated(a, negate)) == LayoutToks(a) + NotTokens(negate)
  {
  }

  lemma NullToks(negate: bool)
    ensures LayoutToks(NullWord(negate)) == NotTokens(negate) + [KwToken(NULL)]
  {
  }

  /** A predicate in parentheses: left side, optional NOT, keyword, right side. */
  lemma PredicateToks(a: Layout, negate: bool, w: Word, b: Layout)
    ensures LayoutToks(Paren(Infixed(Negated(a, negate), Keyword(w), b)))
         == [OPEN] + ((LayoutToks(a) + (NotTokens(negate) + ([KwToken(w)] + LayoutToks(b)))) + [CLOSE])
  {
    ParenToks(Infixed(Negated(a, negate), Keyword(w), b));
    InfixedToks(Negated(a, negate), Keyword(w), b, KwToken(w));
    NegationToks(a, negate);
    CatAssoc(LayoutToks(a), NotTokens(negate), [KwToken(w)] + LayoutToks(b));
  }

  /** A layout spells a concrete tree. */
  predicate Spells(l: Layout, s: Syn) {
    LayoutToks(l) == Toks(s)
  }

  lemma {:induction false} TokensOfText(q: Sq)
    requires PlainSq(q)
    ensures Spells(LayoutOf(q), Concrete(q))
    decreases q, 1
  {
    match q
    case QNeg(x) =>
      TokensOfText(x);
      MinusSpells(LayoutOf(x), Concrete(x));
    case QNot(x) =>
      TokensOfText(x);
      NotSpells(LayoutOf(x), Concrete(x));
    case QBin(op, l, r) =>
      TokensOfText(l);
      TokensOfText(r);
      InfixSpells(LayoutOf(l), op, LayoutOf(r), Concrete(l), Concrete(r));
    case QIn(x, list, negate) =>
      TokensOfText(x);
      TokensOfList(list);
      InSpells(LayoutOf(x), negate, Paren(LayoutList(list)), Concrete(x), ConcreteArgs(list));
    case QLike(x, p, negate) =>
      TokensOfText(x);
      TokensOfText(p);
      LikeSpells(LayoutOf(x), negate, LayoutOf(p), Concrete(x), Concrete(p));
    case QBetween(x, low, high, negate) =>
      TokensOfText(x);
      TokensOfText(low);
      TokensOfText(high);
      BetweenSpells(LayoutOf(x), negate, LayoutOf(low), LayoutOf(high), Concrete(x), Concrete(low), Concrete(high));
    case QIsNull(x, negate) =>
      TokensOfText(x);
      IsNullSpells(LayoutOf(x), negate, Concrete(x));
    case _ => TokensOfLeaf(q);
  }

  lemma LeafSpells(p: Piece, s: Syn)
    requires PieceToks(p) == Toks(s)
    ensures Spells(Leaf(p), s)
  {
  }

  lemma NumberSpells(d: Decimal)
    ensures Spells(Leaf(Number(d)), ConcreteNumber(d))
  {
    if d.mantissa < 0 {
      NegatedToks(DecimalText(Decimal(-d.mantissa, d.scale)));
    }
  }

  lemma NegatedToks(s: string)
    ensures Toks(SNeg(OpToken(Sub), SNum(NumToken(s)))) == [OpToken(Sub), NumToken(s)]
  {
  }

  lemma TokensOfLeaf(q: Sq)
    requires PlainSq(q) && LayoutOf(q).Leaf?
    ensures Spells(LayoutOf(q), Concrete(q))
  {
    match q
    case QNum(d) => NumberSpells(d);
    case QText(s) => LeafSpells(Quoted(s), SStr(MakeToken(StrTok, s)));
    case QStar => LeafSpells(Asterisk, SStar(OpToken(Mul)));
    case QCol(name) => LeafSpells(Name(name), SCol(MakeToken(IdentTok, name)));
    case QAlias(name) => LeafSpells(Alias(name), SCol(MakeToken(IdentTok, name)));
  }

  lemma MinusSpells(x: Layout, s: Syn)
    requires Spells(x, s)
    ensures Spells(Paren(Cat(Leaf(Minus), x)), Group(SNeg(OpToken(Sub), s)))
  {
    assert LayoutToks(Leaf(Minus)) == [OpToken(Sub)];
    ParenToks(Cat(Leaf(Minus), x));
  }

  lemma NotSpells(x: Layout, s: Syn)
    requires Spells(x, s)
    ensures Spells(Paren(Cat(Leaf(Keyword(NOT)), Cat(Leaf(Space), x))), Group(SNot(KwToken(NOT), s)))
  {
    assert LayoutToks(Leaf(Keyword(NOT))) == [KwToken(NOT)];
    assert LayoutToks(Cat(Leaf(Space), x)) == [] + LayoutToks(x) == LayoutToks(x);
    ParenToks(Cat(Leaf(Keyword(NOT)), Cat(Leaf(Space), x)));
  }

  lemma InfixSpells(a: Layout, op: BinOp, b: Layout, s: Syn, t: Syn)
    requires Spells(a, s) && Spells(b, t)
    ensures Spells(Paren(Infixed(a, OpPiece(op), b)), Group(SBin(s, InfixToken(op), t)))
  {
    OpToks(op);
    ParenToks(Infixed(a, OpPiece(op), b));
    InfixedToks(a, OpPiece(op), b, InfixToken(op));
  }

  lemma InSpells(a: Layout, negate: bool, b: Layout, s: Syn, args: SArgs)
    requires Spells(a, s) && LayoutToks(b) == Wrap(args, ToksItems(args.items))
    ensures Spells(Paren(Infixed(Negated(a, negate), Keyword(IN), b)),
              Group(SIn(s, NotTokens(negate), KwToken(IN), args)))
  {
    PredicateToks(a, negate, IN, b);
    var x := SIn(s, NotTokens(negate), KwToken(IN), args);
    assert Toks(x) == Toks(s) + (NotTokens(negate) + ([KwToken(IN)] + LayoutToks(b)));
  }

  lemma LikeSpells(a: Layout, negate: bool, b: Layout, s: Syn, t: Syn)
    requires Spells(a, s) && Spells(b, t)
    ensures Spells(Paren(Infixed(Negated(a, negate), Keyword(LIKE), b)),
              Group(SLike(s, NotTokens(negate), KwToken(LIKE), t)))
  {
    PredicateToks(a, negate, LIKE, b);
  }

  lemma BetweenSpells(a: Layout, negate: bool, low: Layout, high: Layout, s: Syn, t: Syn, u: Syn)
    requires Spells(a, s) && Spells(low, t) && Spells(high, u)
    ensures Spells(Paren(Infixed(Negated(a, negate), Keyword(BETWEEN), Infixed(low, Keyword(AND), high))),
                   Group(SBetween(s, NotTokens(negate), KwToken(BETWEEN), t, KwToken(AND), u)))
  {
    InfixedToks(low, Keyword(AND), high, KwToken(AND));
    PredicateToks(a, negate, BETWEEN, Infixed(low, Keyword(AND), high));
  }

  lemma IsNullSpells(a: Layout, negate: bool, s: Syn)
    requires Spells(a, s)
    ensures Spells(Paren(Infixed(a, Keyword(IS), NullWord(negate))),
                   Group(SIsNull(s, KwToken(IS), NotTokens(negate), KwToken(NULL))))
  {
    NullToks(negate);
    ParenToks(Infixed(a, Keyword(IS), NullWord(negate)));
    InfixedToks(a, Keyword(IS), NullWord(negate), KwToken(IS));
  }

  lemma OpToks(op: BinOp)
    ensures PieceToks(OpPiece(op)) == [InfixToken(op)]
  {
  }

  lemma {:induction false} TokensOfList(list: seq<Sq>)
    requires forall i :: 0 <= i < |list| ==> PlainSq(list[i])
    ensures LayoutToks(Paren(LayoutList(list))) == Wrap(ConcreteArgs(list), ToksItems(ConcreteArgs(list).items))
    decreases list, 2
  {
    var items := ConcreteArgs(list).items;
    ParenToks(LayoutList(list));
    if list != [] {
      TokensOfText(list[0]);
      TokensOfTail(list[1..]);
      var both := Toks(Concrete(list[0])) + ToksItems(ConcreteTail(list[1..]));
      assert [] + both == both;
    }
    assert LayoutToks(LayoutList(list)) == ToksItems(items);
    assert [] + (ToksItems(items) + [CLOSE]) == ToksItems(items) + [CLOSE];
  }

  lemma {:induction false} TokensOfTail(list: seq<Sq>)
    requires forall i :: 0 <= i < |list| ==> PlainSq(list[i])
    ensures LayoutToks(LayoutTail(list)) == ToksItems(ConcreteTail(list))
    decreases list, 1
  {
    if list != [] {
      TokensOfText(list[0]);
      TokensOfTail(list[1..]);
      CommaToks(Cat(LayoutOf(list[0]), LayoutTail(list[1..])));
    }
  }

  lemma CommaToks(l: Layout)
    ensures LayoutToks(Cat(Cat(Leaf(Punct(',')), Leaf(Space)), l)) == [COMMA] + LayoutToks(l)
  {
  }

  // ---- The concrete tree strips to the source tree ----

  /** Source trees whose emission is plain: every operator but division, no function or timestamp, and no minus sign in
      front of a negative interval. */
  predicate PlainNode(e: Node, ctx: Ctx) {
    match e
    case Num(d) => d.Normal() && d.mantissa >= 0
    case Interval(d) => d.Normal()
    case Str(_) => true
    case Star => true
    case Col(name) =>
      name != "timestamp" && !Reserved(name) && (if IsColumn(name) then Wordy(name) else SimpleName(name))
    case Neg(x) => PlainNode(x, ctx) && !NegativeLiteral(x)
    case Not(x) => PlainNode(x, ctx)
    case Binary(op, l, r) => !op.Div? && PlainNode(l, ctx) && PlainNode(r, ctx)
    case In(x, list, _) =>
      && PlainNode(x, ctx) && (forall i :: 0 <= i < |list| ==> PlainNode(list[i], ctx))
      && (list != [] ==> list[0] != Str(")") && list[0] != Col(")"))
    case Like(x, p, _) => PlainNode(x, ctx) && PlainNode(p, ctx)
    case Between(x, low, high, _) => PlainNode(x, ctx) && PlainNode(low, ctx) && PlainNode(high, ctx)
    case IsNull(x, _) => PlainNode(x, ctx)
    case _ => false
  }

  /** A number as the query writes it, its sign apart. */
  function Plus(d: Decimal): Node {
    if d.mantissa < 0 then Neg(Num(Decimal(-d.mantissa, d.scale))) else Num(d)
  }

  /** The tree with `<>` written as `!=` and intervals as their seconds. */
  function Normalised(e: Node): Node
    decreases e, 0
  {
    match e
    case Interval(d) => Plus(d)
    case Neg(x) => Neg(Normalised(x))
    case Not(x) => Not(Normalised(x))
    case Binary(op, l, r) => Binary(if op.LtGt? then Ne else op, Normalised(l), Normalised(r))
    case In(x, list, negate) => In(Normalised(x), NormalisedList(list), negate)
    case Like(x, p, negate) => Like(Normalised(x), Normalised(p), negate)
    case Between(x, low, high, negate) => Between(Normalised(x), Normalised(low), Normalised(high), negate)
    case IsNull(x, negate) => IsNull(Normalised(x), negate)
    case _ => e
  }

  function NormalisedList(list: seq<Node>): seq<Node>
    decreases list, 1
  {
    if list == [] then [] else [Normalised(list[0])] + NormalisedList(list[1..])
  }

  /** A tree that no context can tear apart. */
  predicate Closed(s: Syn, e: Node) {
    WF(s) && IsUnary(s) && FitsUnary(s) && !First(s).IsWord(NOT) && Trail(s) == 7 && Strip(s) == e
  }

  /** What emission owes: a plain expression whose concrete tree, a closed one, strips to `e`. */
  predicate Stands(q: Sq, e: Node) {
    PlainSq(q) && Closed(Concrete(q), e)
  }

  lemma ClosedPrints(s: Syn, e: Node, p: nat)
    requires Closed(s, e)
    ensures Prints(s, e, p)
  {
  }

  lemma GroupClosed(s: Syn, e: Node)
    requires Prints(s, e, 0)
    ensures Closed(Group(s), e)
  {
  }

  lemma {:induction false} PlainIsUntimed(e: Node, ctx: Ctx)
    requires PlainNode(e, ctx)
    ensures !InferType(e).IsTime()
  {
    match e
    case Neg(x) => PlainIsUntimed(x, ctx);
    case _ =>
  }

  /** What emission promises of `e`, when it is plain. */
  ghost predicate Promised(e: Node, ctx: Ctx) {
    forall q :: Emit(e, ctx) == Success(q) && PlainNode(e, ctx) ==>
        Stands(q, Normalised(e)) && (ReadsAsCloser(q) ==> e == Str(")") || e == Col(")"))
  }

  lemma {:induction false} EmitStands(e: Node, ctx: Ctx)
    ensures Promised(e, ctx)
    decreases e, 2
  {
    match e
    case Num(d) => if d.Normal() { NumberStands(d); }
    case Interval(d) => if d.Normal() { NumberStands(d); }
    case Binary(_, l, r) =>
      EmitStands(l, ctx);
      EmitStands(r, ctx);
      BinaryPromised(e, ctx);
    case In(_, _, _) => InEmitStands(e, ctx);
    case Between(x, low, high, _) =>
      EmitStands(x, ctx);
      EmitStands(low, ctx);
      EmitStands(high, ctx);
      BetweenPromised(e, ctx);
    case Like(x, pat, _) =>
      EmitStands(x, ctx);
      EmitStands(pat, ctx);
      LikePromised(e, ctx);
    case IsNull(x, _) =>
      EmitStands(x, ctx);
      IsNullPromised(e, ctx);
    case Neg(x) =>
      EmitStands(x, ctx);
      NegPromised(e, ctx);
    case Not(x) =>
      EmitStands(x, ctx);
      NotPromised(e, ctx);
    case _ => LeafPromised(e, ctx);
  }

  lemma {:induction false} InEmitStands(e: Node, ctx: Ctx)
    requires e.In?
    ensures Promised(e, ctx)
    decreases e, 1
  {
    EmitStands(e.expr, ctx);
    forall i | 0 <= i < |e.list| ensures Promised(e.list[i], ctx) {
      EmitStands(e.list[i], ctx);
    }
    InPromised(e, ctx);
  }

  lemma OperandAsItStands(e: Node, against: Node, ctx: Ctx)
    requires !InferType(against).IsTime()
    ensures EmitOperand(e, against, ctx) == Emit(e, ctx)
  {
  }

  lemma BinaryPromised(e: Node, ctx: Ctx)
    requires e.Binary? && Promised(e.left, ctx) && Promised(e.right, ctx)
    ensures Promised(e, ctx)
  {
    if PlainNode(e, ctx) && Emit(e, ctx).Success? {
      PlainIsUntimed(e.left, ctx);
      PlainIsUntimed(e.right, ctx);
      OperandAsItStands(e.left, e.right, ctx);
      OperandAsItStands(e.right, e.left, ctx);
      var q := Emit(e, ctx).value;
      assert Emit(e.left, ctx) == Success(q.left) && Emit(e.right, ctx) == Success(q.right);
      BinStands(q.op, q.left, q.right, Normalised(e.left), Normalised(e.right));
    }
  }

  lemma InPromised(e: Node, ctx: Ctx)
    requires e.In? && Promised(e.expr, ctx) && forall i :: 0 <= i < |e.list| ==> Promised(e.list[i], ctx)
    ensures Promised(e, ctx)
  {
    if PlainNode(e, ctx) && Emit(e, ctx).Success? {
      var q := Emit(e, ctx).value;
      PlainIsUntimed(e.expr, ctx);
      ListStands(e.expr, e.list, q.list, ctx);
      InStands(q, Normalised(e.expr), NormalisedList(e.list));
    }
  }

  lemma BetweenPromised(e: Node, ctx: Ctx)
    requires e.Between? && Promised(e.expr, ctx) && Promised(e.low, ctx) && Promised(e.high, ctx)
    ensures Promised(e, ctx)
  {
    if PlainNode(e, ctx) && Emit(e, ctx).Success? {
      PlainIsUntimed(e.expr, ctx);
      OperandAsItStands(e.low, e.expr, ctx);
      OperandAsItStands(e.high, e.expr, ctx);
      var q := Emit(e, ctx).value;
      assert Emit(e.low, ctx) == Success(q.low) && Emit(e.high, ctx) == Success(q.high);
      BetweenStands(q, Normalised(e.expr), Normalised(e.low), Normalised(e.high));
    }
  }

  lemma LikePromised(e: Node, ctx: Ctx)
    requires e.Like? && Promised(e.expr, ctx) && Promised(e.pattern, ctx)
    ensures Promised(e, ctx)
  {
    if PlainNode(e, ctx) && Emit(e, ctx).Success? {
      LikeStands(Emit(e, ctx).value, Normalised(e.expr), Normalised(e.pattern));
    }
  }

  lemma IsNullPromised(e: Node, ctx: Ctx)
    requires e.IsNull? && Promised(e.expr, ctx)
    ensures Promised(e, ctx)
  {
    if PlainNode(e, ctx) && Emit(e, ctx).Success? {
      var q := Emit(e, ctx).value;
      assert Emit(e.expr, ctx) == Success(q.expr) && q.QIsNull? && q.negate == e.negate;
      IsNullStands(q, Normalised(e.expr));
    }
  }

  lemma UnsignedOperand(x: Node, q: Sq, ctx: Ctx)
    requires PlainNode(x, ctx) && Emit(x, ctx) == Success(q) && !NegativeLiteral(x)
    ensures !NegativeNumber(q)
  {
  }

  lemma NegPromised(e: Node, ctx: Ctx)
    requires e.Neg? && Promised(e.operand, ctx)
    ensures Promised(e, ctx)
  {
    if PlainNode(e, ctx) && Emit(e, ctx).Success? {
      var q := Emit(e.operand, ctx).value;
      UnsignedOperand(e.operand, q, ctx);
      NegStands(QNeg(q), Normalised(e.operand));
    }
  }

  lemma NotPromised(e: Node, ctx: Ctx)
    requires e.Not? && Promised(e.operand, ctx)
    ensures Promised(e, ctx)
  {
    if PlainNode(e, ctx) && Emit(e, ctx).Success? {
      NotStands(Emit(e, ctx).value, Normalised(e.operand));
    }
  }

  lemma LeafPromised(e: Node, ctx: Ctx)
    requires e.Str? || e.Star? || e.Col? || e.Func?
    ensures Promised(e, ctx)
  {
  }

  lemma NumberStands(d: Decimal)
    requires d.Normal()
    ensures Stands(QNum(d), Plus(d))
  {
    NumberClosed(d);
    assert Concrete(QNum(d)) == ConcreteNumber(d);
  }

  lemma NumberClosed(d: Decimal)
    requires d.Normal()
    ensures Closed(ConcreteNumber(d), Plus(d))
  {
    var u := Decimal(Magnitude(d.mantissa), d.scale);
    MagnitudeNormal(d, u);
    DecimalRoundTrip(u);
    var text := DecimalText(u);
    NumberIs(d, u, text);
    if d.mantissa < 0 {
      NegatedClosed(text, u);
    } else {
      PlusClosed(text, u);
    }
  }

  function Magnitude(m: int): nat {
    if m < 0 then -m else m
  }

  lemma MagnitudeNormal(d: Decimal, u: Decimal)
    requires d.Normal() && u == Decimal(Magnitude(d.mantissa), d.scale)
    ensures u.Normal()
  {
    NegatedMod(d.mantissa);
  }

  lemma NumberIs(d: Decimal, u: Decimal, text: string)
    requires u == Decimal(Magnitude(d.mantissa), d.scale) && text == DecimalText(u)
    ensures ConcreteNumber(d) ==
            if d.mantissa < 0 then SNeg(OpToken(Sub), SNum(NumToken(text))) else SNum(NumToken(text))
    ensures Plus(d) == if d.mantissa < 0 then Neg(Num(u)) else Num(u)
  {
  }

  lemma PlusClosed(s: string, d: Decimal)
    requires JsNumber(s) == Some(d)
    ensures Closed(SNum(NumToken(s)), Num(d))
  {
  }

  lemma NegatedClosed(s: string, d: Decimal)
    requires JsNumber(s) == Some(d)
    ensures Closed(SNeg(OpToken(Sub), SNum(NumToken(s))), Neg(Num(d)))
  {
  }

  lemma BinClosed(op: BinOp, a: Syn, b: Syn, l: Node, r: Node)
    requires Closed(a, l) && Closed(b, r)
    ensures Closed(Group(SBin(a, InfixToken(op), b)), Binary(op, l, r))
  {
    var s := SBin(a, InfixToken(op), b);
    ClosedPrints(a, l, op.Prec());
    ClosedPrints(b, r, op.Prec() + 1);
    BinaryTree(s, l, r, op, 0);
    GroupClosed(s, Binary(op, l, r));
  }

  lemma BinStands(op: BinOp, x: Sq, y: Sq, l: Node, r: Node)
    requires !op.Div? && Stands(x, l) && Stands(y, r)
    ensures Stands(QBin(op, x, y), Binary(op, l, r))
  {
    BinClosed(op, Concrete(x), Concrete(y), l, r);
    assert Concrete(QBin(op, x, y)) == Group(SBin(Concrete(x), InfixToken(op), Concrete(y)));
  }

  lemma InStands(q: Sq, x: Node, list: seq<Node>)
    requires q.QIn? && Stands(q.expr, x) && (forall i :: 0 <= i < |q.list| ==> PlainSq(q.list[i]))
    requires q.list != [] ==> !ReadsAsCloser(q.list[0])
    requires var a := ConcreteArgs(q.list);
             ArgsShape(a) && WFItems(a.items) && FitsItems(a.items) && StripItems(a.items) == list
    ensures Stands(q, In(x, list, q.negate))
  {
    var s := SIn(Concrete(q.expr), NotTokens(q.negate), KwToken(IN), ConcreteArgs(q.list));
    ClosedPrints(s.left, x, 3);
    InTree(s, x, list, 0);
    GroupClosed(s, In(x, list, q.negate));
  }

  lemma LikeStands(q: Sq, x: Node, p: Node)
    requires q.QLike? && Stands(q.expr, x) && Stands(q.pattern, p)
    ensures Stands(q, Like(x, p, q.negate))
  {
    var s := SLike(Concrete(q.expr), NotTokens(q.negate), KwToken(LIKE), Concrete(q.pattern));
    ClosedPrints(s.left, x, 3);
    ClosedPrints(s.right, p, 4);
    LikeTree(s, x, p, 0);
    GroupClosed(s, Like(x, p, q.negate));
  }

  lemma BetweenStands(q: Sq, x: Node, low: Node, high: Node)
    requires q.QBetween? && Stands(q.expr, x) && Stands(q.low, low) && Stands(q.high, high)
    ensures Stands(q, Between(x, low, high, q.negate))
  {
    var s := SBetween(Concrete(q.expr), NotTokens(q.negate), KwToken(BETWEEN), Concrete(q.low), KwToken(AND),
        Concrete(q.high));
    ClosedPrints(s.left, x, 3);
    ClosedPrints(s.low, low, 4);
    ClosedPrints(s.right, high, 4);
    BetweenTree(s, x, low, high, 0);
    GroupClosed(s, Between(x, low, high, q.negate));
  }

  lemma IsNullStands(q: Sq, x: Node)
    requires q.QIsNull? && Stands(q.expr, x)
    ensures Stands(q, IsNull(x, q.negate))
  {
    var s := SIsNull(Concrete(q.expr), KwToken(IS), NotTokens(q.negate), KwToken(NULL));
    ClosedPrints(s.left, x, 3);
    IsNullTree(s, x, 0);
    GroupClosed(s, IsNull(x, q.negate));
  }

  lemma NegStands(q: Sq, x: Node)
    requires q.QNeg? && Stands(q.operand, x) && !NegativeNumber(q.operand)
    ensures Stands(q, Neg(x))
  {
    ClosedPrints(Concrete(q.operand), x, 9);
    NegTree(x, Concrete(q.operand), 0);
    GroupClosed(SNeg(OpToken(Sub), Concrete(q.operand)), Neg(x));
  }

  lemma NotStands(q: Sq, x: Node)
    requires q.QNot? && Stands(q.operand, x)
    ensures Stands(q, Not(x))
  {
    ClosedPrints(Concrete(q.operand), x, 3);
    NotTree(x, Concrete(q.operand), 0);
    GroupClosed(SNot(KwToken(NOT), Concrete(q.operand)), Not(x));
  }

  /** The concrete list of emitted items: well shaped, and stripping to the source list. */
  lemma ListStands(x: Node, list: seq<Node>, qs: seq<Sq>, ctx: Ctx)
    requires !InferType(x).IsTime() && EmitList(list, x, ctx) == Success(qs)
    requires forall i :: 0 <= i < |list| ==> PlainNode(list[i], ctx) && Promised(list[i], ctx)
    requires list != [] ==> list[0] != Str(")") && list[0] != Col(")")
    ensures forall i :: 0 <= i < |qs| ==> PlainSq(qs[i])
    ensures qs != [] ==> !ReadsAsCloser(qs[0])
    ensures var a := ConcreteArgs(qs);
            ArgsShape(a) && WFItems(a.items) && FitsItems(a.items) && StripItems(a.items) == NormalisedList(list)
  {
    if list != [] {
      assert Promised(list[0], ctx) && EmitList(list[1..], x, ctx) == Success(qs[1..]);
      TailStands(x, list[1..], qs[1..], ctx);
      FirstIsNotCloser(qs[0]);
    }
  }

  lemma FirstIsNotCloser(q: Sq)
    requires PlainSq(q) && !ReadsAsCloser(q)
    ensures !First(Concrete(q)).mark.RParen?
  {
    match q
    case QText(s) => CloserMark(StrTok, s);
    case QCol(name) => CloserMark(IdentTok, name);
    case QAlias(name) => CloserMark(IdentTok, name);
    case QNum(d) => assert First(Concrete(q)) == First(ConcreteNumber(d));
    case QStar => assert Concrete(q) == SStar(OpToken(Mul));
    case QNeg(x) => GroupOpens(SNeg(OpToken(Sub), Concrete(x)));
    case QNot(x) => GroupOpens(SNot(KwToken(NOT), Concrete(x)));
    case _ => PredicateOpens(q);
  }

  lemma GroupOpens(s: Syn)
    ensures First(Group(s)) == OPEN
  {
  }

  lemma PredicateOpens(q: Sq)
    requires PlainSq(q) && (q.QBin? || q.QIn? || q.QLike? || q.QBetween? || q.QIsNull?)
    ensures First(Concrete(q)) == OPEN
  {
    match q
    case QBin(op, l, r) => GroupOpens(SBin(Concrete(l), InfixToken(op), Concrete(r)));
    case QIn(x, list, negate) => GroupOpens(SIn(Concrete(x), NotTokens(negate), KwToken(IN), ConcreteArgs(list)));
    case QLike(x, p, negate) => GroupOpens(SLike(Concrete(x), NotTokens(negate), KwToken(LIKE), Concrete(p)));
    case QBetween(x, low, high, negate) =>
      GroupOpens(SBetween(Concrete(x), NotTokens(negate), KwToken(BETWEEN), Concrete(low), KwToken(AND),
          Concrete(high)));
    case QIsNull(x, negate) => GroupOpens(SIsNull(Concrete(x), KwToken(IS), NotTokens(negate), KwToken(NULL)));
  }

  lemma CloserMark(kind: Kind, s: string)
    requires kind.StrTok? || kind.IdentTok?
    ensures MakeToken(kind, s).mark.RParen? <==> s == ")"
  {
  }

  lemma {:induction false} TailStands(x: Node, list: seq<Node>, qs: seq<Sq>, ctx: Ctx)
    requires !InferType(x).IsTime() && EmitList(list, x, ctx) == Success(qs)
    requires forall i :: 0 <= i < |list| ==> PlainNode(list[i], ctx) && Promised(list[i], ctx)
    ensures forall i :: 0 <= i < |qs| ==> PlainSq(qs[i])
    ensures var l := ConcreteTail(qs);
            Separated(l) && WFItems(l) && FitsItems(l) && StripItems(l) == NormalisedList(list)
  {
    if list != [] {
      assert Promised(list[0], ctx) && EmitList(list[1..], x, ctx) == Success(qs[1..]);
      TailStands(x, list[1..], qs[1..], ctx);
    }
  }

  /** Main result: tokenizing and parsing the emitted text yields the tree it was emitted from. */
  lemma EmitThenParse(e: Node, q: Sq, ctx: Ctx)
    requires PlainNode(e, ctx) && Emit(e, ctx) == Success(q)
    ensures Lex(Render(q)).Success? && ParseExpr(Lex(Render(q)).value, 0) == Ok(Normalised(e), [])
  {
    EmitStands(e, ctx);
    FineExpr(q, "");
    ReadsLayout(LayoutOf(q), "");
    TokensOfText(q);
    var s := Concrete(q);
    assert Render(q) + "" == Render(q);
    assert Toks(s) + [] == Toks(s);
    ReadsFully(s, 0, []);
  }
}

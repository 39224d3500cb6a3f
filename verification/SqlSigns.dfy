/** Minus signs in the emitted text: two in a row would start a comment. */
module SqlSigns {
  import opened Basics
  import opened SqlNumbers
  import opened SqlTokens
  import opened SqlLexer
  import opened SqlSyntax
  import opened SqlEmit
  import opened SqlPrinter
  import opened SqlText
  import SqlReparse
  import SqlMeaning
  import SqlMeaningProof

  /** No minus sign of the layout is followed by another. */
  predicate Apart(l: Layout, rest: string) {
    match l
    case Blank => true
    case Leaf(p) => p.Minus? ==> !Dashed(rest)
    case Cat(a, b) => Apart(a, Text(b) + rest) && Apart(b, rest)
  }

  predicate Dashed(text: string) {
    text != "" && text[0] == '-'
  }

  /** No operand of a minus sign starts with one. */
  predicate MinusApart(q: Sq) {
    match q
    case QNeg(x) => MinusApart(x) && !Dashed(Render(x))
    case QNot(x) => MinusApart(x)
    case QBin(_, l, r) => MinusApart(l) && MinusApart(r)
    case QRealDiv(l, r) => MinusApart(l) && MinusApart(r)
    case QIn(x, list, _) => MinusApart(x) && forall i :: 0 <= i < |list| ==> MinusApart(list[i])
    case QLike(x, p, _) => MinusApart(x) && MinusApart(p)
    case QBetween(x, low, high, _) => MinusApart(x) && MinusApart(low) && MinusApart(high)
    case QIsNull(x, _) => MinusApart(x)
    case QCast(x, _) => MinusApart(x)
    case QWrap(x) => MinusApart(x)
    case QCase(c, a, b) => MinusApart(c) && MinusApart(a) && MinusApart(b)
    case QTruncate(x, _) => MinusApart(x)
    case QAbs(x) => MinusApart(x)
    case _ => true
  }

  /** The same of the source tree: no minus sign stands before a negative literal. */
  predicate SignsApart(e: Node) {
    match e
    case Neg(x) => SignsApart(x) && !NegativeLiteral(x)
    case Not(x) => SignsApart(x)
    case Binary(_, l, r) => SignsApart(l) && SignsApart(r)
    case In(x, list, _) => SignsApart(x) && forall i :: 0 <= i < |list| ==> SignsApart(list[i])
    case Like(x, p, _) => SignsApart(x) && SignsApart(p)
    case Between(x, low, high, _) => SignsApart(x) && SignsApart(low) && SignsApart(high)
    case IsNull(x, _) => SignsApart(x)
    case Func(_, args, _, _) => forall i :: 0 <= i < |args| ==> SignsApart(args[i])
    case _ => true
  }

  // ---- Layouts ----

  /** Whether a layout is apart does not depend on what follows it. */
  ghost predicate Settled(l: Layout, b: bool) {
    forall rest :: Apart(l, rest) <==> b
  }

  lemma LeafSettled(p: Piece)
    requires !p.Minus?
    ensures Settled(Leaf(p), true)
  {
  }

  lemma CatSettled(a: Layout, x: bool, b: Layout, y: bool)
    requires Settled(a, x) && Settled(b, y)
    ensures Settled(Cat(a, b), x && y)
  {
    forall rest ensures Apart(Cat(a, b), rest) <==> x && y {
      assert Apart(a, Text(b) + rest) == x;
      assert Apart(b, rest) == y;
    }
  }

  lemma ParenSettled(l: Layout, x: bool)
    requires Settled(l, x)
    ensures Settled(Paren(l), x)
  {
    LeafSettled(Punct(')'));
    LeafSettled(Punct('('));
    CatSettled(l, x, Leaf(Punct(')')), true);
    CatSettled(Leaf(Punct('(')), true, Cat(l, Leaf(Punct(')'))), x);
  }

  lemma AroundSettled(before: string, l: Layout, x: bool, after: string)
    requires Settled(l, x)
    ensures Settled(Around(before, l, after), x)
  {
    LeafSettled(Raw(after));
    LeafSettled(Raw(before));
    CatSettled(l, x, Leaf(Raw(after)), true);
    CatSettled(Leaf(Raw(before)), true, Cat(l, Leaf(Raw(after))), x);
  }

  lemma InfixedSettled(a: Layout, x: bool, p: Piece, b: Layout, y: bool)
    requires Settled(a, x) && Settled(b, y) && !p.Minus?
    ensures Settled(Infixed(a, p, b), x && y)
  {
    LeafSettled(Space);
    LeafSettled(p);
    CatSettled(Leaf(p), true, Leaf(Space), true);
    CatSettled(Leaf(Space), true, Cat(Leaf(p), Leaf(Space)), true);
    var spaced := Cat(Leaf(Space), Cat(Leaf(p), Leaf(Space)));
    CatSettled(spaced, true, b, y);
    CatSettled(a, x, Cat(spaced, b), y);
  }

  lemma NegatedSettled(l: Layout, x: bool, negate: bool)
    requires Settled(l, x)
    ensures Settled(Negated(l, negate), x)
  {
    LeafSettled(Space);
    LeafSettled(Keyword(NOT));
    CatSettled(Leaf(Space), true, Leaf(Keyword(NOT)), true);
    CatSettled(l, x, Cat(Leaf(Space), Leaf(Keyword(NOT))), true);
  }

  lemma NullSettled(negate: bool)
    ensures Settled(NullWord(negate), true)
  {
    LeafSettled(Space);
    LeafSettled(Keyword(NOT));
    LeafSettled(Keyword(NULL));
    CatSettled(Leaf(Space), true, Leaf(Keyword(NULL)), true);
    CatSettled(Leaf(Keyword(NOT)), true, Cat(Leaf(Space), Leaf(Keyword(NULL))), true);
  }

  lemma NegSettled(l: Layout, x: bool)
    requires Settled(l, x)
    ensures Settled(Paren(Cat(Leaf(Minus), l)), x && !Dashed(Text(l)))
  {
    var m := Cat(Leaf(Minus), l);
    forall rest ensures Apart(Paren(m), rest) <==> x && !Dashed(Text(l)) {
      var close := Text(Leaf(Punct(')'))) + rest;
      assert close == ")" + rest;
      assert Dashed(Text(l) + close) == Dashed(Text(l));
      assert Apart(l, close) == x;
      assert Apart(m, close) == (x && !Dashed(Text(l)));
      assert Apart(Cat(m, Leaf(Punct(')'))), rest) == Apart(m, close);
      assert Apart(Leaf(Punct('(')), Text(Cat(m, Leaf(Punct(')')))) + rest);
    }
  }

  lemma PredicateSettled(a: Layout, x: bool, negate: bool, w: Word, b: Layout, y: bool)
    requires Settled(a, x) && Settled(b, y)
    ensures Settled(Paren(Infixed(Negated(a, negate), Keyword(w), b)), x && y)
  {
    NegatedSettled(a, x, negate);
    InfixedSettled(Negated(a, negate), x, Keyword(w), b, y);
    ParenSettled(Infixed(Negated(a, negate), Keyword(w), b), x && y);
  }

  lemma CaseSettled(c: Layout, x: bool, a: Layout, y: bool, b: Layout, z: bool)
    requires Settled(c, x) && Settled(a, y) && Settled(b, z)
    ensures Settled(Cat(Around("(CASE WHEN ", c, " THEN "), Cat(a, Around(" ELSE ", b, " END)"))), x && (y && z))
  {
    AroundSettled("(CASE WHEN ", c, x, " THEN ");
    AroundSettled(" ELSE ", b, z, " END)");
    CatSettled(a, y, Around(" ELSE ", b, " END)"), z);
    CatSettled(Around("(CASE WHEN ", c, " THEN "), x, Cat(a, Around(" ELSE ", b, " END)")), y && z);
  }

  lemma DivSettled(l: Layout, x: bool, r: Layout, y: bool)
    requires Settled(l, x) && Settled(r, y)
    ensures Settled(Paren(Cat(l, Cat(Leaf(Raw(" * 1.0 / ")), r))), x && y)
  {
    LeafSettled(Raw(" * 1.0 / "));
    CatSettled(Leaf(Raw(" * 1.0 / ")), true, r, y);
    CatSettled(l, x, Cat(Leaf(Raw(" * 1.0 / ")), r), y);
    ParenSettled(Cat(l, Cat(Leaf(Raw(" * 1.0 / ")), r)), x && y);
  }

  lemma NotSettled(l: Layout, x: bool)
    requires Settled(l, x)
    ensures Settled(Paren(Cat(Leaf(Keyword(NOT)), Cat(Leaf(Space), l))), x)
  {
    LeafSettled(Space);
    LeafSettled(Keyword(NOT));
    CatSettled(Leaf(Space), true, l, x);
    CatSettled(Leaf(Keyword(NOT)), true, Cat(Leaf(Space), l), x);
    ParenSettled(Cat(Leaf(Keyword(NOT)), Cat(Leaf(Space), l)), x);
  }

  /** The minus signs of a text are apart exactly when no operand of one starts with another. */
  lemma {:induction false} TextApart(q: Sq)
    ensures Settled(LayoutOf(q), MinusApart(q))
    decreases q, 2
  {
    match q
    case QNeg(x) =>
      TextApart(x);
      NegSettled(LayoutOf(x), MinusApart(x));
    case QNot(x) =>
      TextApart(x);
      NotSettled(LayoutOf(x), MinusApart(x));
    case QBin(op, l, r) =>
      TextApart(l);
      TextApart(r);
      InfixedSettled(LayoutOf(l), MinusApart(l), OpPiece(op), LayoutOf(r), MinusApart(r));
      ParenSettled(Infixed(LayoutOf(l), OpPiece(op), LayoutOf(r)), MinusApart(l) && MinusApart(r));
    case QRealDiv(l, r) =>
      TextApart(l);
      TextApart(r);
      DivSettled(LayoutOf(l), MinusApart(l), LayoutOf(r), MinusApart(r));
    case QIn(_, _, _) => InApart(q);
    case QLike(x, p, negate) =>
      TextApart(x);
      TextApart(p);
      PredicateSettled(LayoutOf(x), MinusApart(x), negate, LIKE, LayoutOf(p), MinusApart(p));
    case QBetween(_, _, _, _) => BetweenApart(q);
    case QIsNull(x, negate) =>
      TextApart(x);
      NullSettled(negate);
      PredicateSettled(LayoutOf(x), MinusApart(x), false, IS, NullWord(negate), true);
    case QCase(c, a, b) =>
      TextApart(c);
      TextApart(a);
      TextApart(b);
      CaseSettled(LayoutOf(c), MinusApart(c), LayoutOf(a), MinusApart(a), LayoutOf(b), MinusApart(b));
    case QCast(_, _) => CallsApart(q);
    case QTruncate(_, _) => CallsApart(q);
    case QAbs(_) => CallsApart(q);
    case QWrap(x) =>
      TextApart(x);
      ParenSettled(LayoutOf(x), MinusApart(x));
    case _ => LeafApart(q);
  }

  lemma {:induction false} CallsApart(q: Sq)
    requires q.QCast? || q.QTruncate? || q.QAbs?
    ensures Settled(LayoutOf(q), MinusApart(q))
    decreases q, 1
  {
    TextApart(q.expr);
    CallApart(q, LayoutOf(q).left.p.sqlite, q.expr, LayoutOf(q).right.right.p.sqlite);
  }

  lemma {:induction false} InApart(q: Sq)
    requires q.QIn?
    ensures Settled(LayoutOf(q), MinusApart(q))
    decreases q, 1
  {
    var QIn(x, list, negate) := q;
    TextApart(x);
    ListApart(list);
    var all := forall i :: 0 <= i < |list| ==> MinusApart(list[i]);
    ParenSettled(LayoutList(list), all);
    PredicateSettled(LayoutOf(x), MinusApart(x), negate, IN, Paren(LayoutList(list)), all);
  }

  lemma {:induction false} BetweenApart(q: Sq)
    requires q.QBetween?
    ensures Settled(LayoutOf(q), MinusApart(q))
    decreases q, 1
  {
    var QBetween(x, low, high, negate) := q;
    TextApart(x);
    TextApart(low);
    TextApart(high);
    InfixedSettled(LayoutOf(low), MinusApart(low), Keyword(AND), LayoutOf(high), MinusApart(high));
    PredicateSettled(LayoutOf(x), MinusApart(x), negate, BETWEEN, Infixed(LayoutOf(low), Keyword(AND), LayoutOf(high)),
                     MinusApart(low) && MinusApart(high));
  }

  lemma LeafApart(q: Sq)
    requires LayoutOf(q).Leaf?
    ensures Settled(LayoutOf(q), MinusApart(q))
  {
    LeafSettled(LayoutOf(q).p);
  }

  /** The text `after` of a call, with the layout it closes. */
  lemma CallApart(q: Sq, before: string, x: Sq, after: string)
    requires LayoutOf(q) == Around(before, LayoutOf(x), after) && MinusApart(q) == MinusApart(x)
    requires Settled(LayoutOf(x), MinusApart(x))
    ensures Settled(LayoutOf(q), MinusApart(q))
  {
    AroundSettled(before, LayoutOf(x), MinusApart(x), after);
  }

  lemma {:induction false} ListApart(list: seq<Sq>)
    ensures Settled(LayoutList(list), forall i :: 0 <= i < |list| ==> MinusApart(list[i]))
    decreases list, 4
  {
    if list != [] {
      TextApart(list[0]);
      TailApart(list[1..]);
      var rest := forall i :: 0 <= i < |list[1..]| ==> MinusApart(list[1..][i]);
      CatSettled(LayoutOf(list[0]), MinusApart(list[0]), LayoutTail(list[1..]), rest);
      AllFromTail(list);
    }
  }

  lemma AllFromTail(list: seq<Sq>)
    requires list != []
    ensures (forall i :: 0 <= i < |list| ==> MinusApart(list[i])) <==>
            MinusApart(list[0]) && forall i :: 0 <= i < |list[1..]| ==> MinusApart(list[1..][i])
  {
    forall i | 0 < i < |list| ensures list[i] == list[1..][i - 1] {
    }
  }

  lemma {:induction false} TailApart(list: seq<Sq>)
    ensures Settled(LayoutTail(list), forall i :: 0 <= i < |list| ==> MinusApart(list[i]))
    decreases list, 3
  {
    if list != [] {
      TextApart(list[0]);
      TailApart(list[1..]);
      var rest := forall i :: 0 <= i < |list[1..]| ==> MinusApart(list[1..][i]);
      var body := Cat(LayoutOf(list[0]), LayoutTail(list[1..]));
      var comma := Cat(Leaf(Punct(',')), Leaf(Space));
      LeafSettled(Punct(','));
      LeafSettled(Space);
      CatSettled(Leaf(Punct(',')), true, Leaf(Space), true);
      CatSettled(LayoutOf(list[0]), MinusApart(list[0]), LayoutTail(list[1..]), rest);
      CatSettled(comma, true, body, MinusApart(list[0]) && rest);
      AllFromTail(list);
    }
  }

  // ---- Emission ----

  lemma ParenLeads(l: Layout)
    ensures !Dashed(Text(Paren(l)))
  {
    ParenText(l);
  }

  lemma AroundLeads(before: string, l: Layout, after: string)
    requires before != "" && before[0] != '-'
    ensures !Dashed(Text(Around(before, l, after)))
  {
  }

  lemma CatLeads(a: Layout, b: Layout)
    requires Text(a) != "" && !Dashed(Text(a))
    ensures !Dashed(Text(Cat(a, b)))
  {
  }

  /** Everything else the emitter writes starts with a bracket, a quote, a word or a star. */
  lemma OnlyNumbersLead(q: Sq)
    requires !q.QNum? && !q.QCol?
    ensures !Dashed(Render(q))
  {
    match q
    case QNeg(x) => ParenLeads(Cat(Leaf(Minus), LayoutOf(x)));
    case QNot(x) => ParenLeads(Cat(Leaf(Keyword(NOT)), Cat(Leaf(Space), LayoutOf(x))));
    case QBin(op, l, r) => ParenLeads(Infixed(LayoutOf(l), OpPiece(op), LayoutOf(r)));
    case QRealDiv(l, r) => ParenLeads(Cat(LayoutOf(l), Cat(Leaf(Raw(" * 1.0 / ")), LayoutOf(r))));
    case QIn(x, list, negate) =>
      ParenLeads(Infixed(Negated(LayoutOf(x), negate), Keyword(IN), Paren(LayoutList(list))));
    case QLike(x, p, negate) => ParenLeads(Infixed(Negated(LayoutOf(x), negate), Keyword(LIKE), LayoutOf(p)));
    case QBetween(x, low, high, negate) =>
      ParenLeads(Infixed(Negated(LayoutOf(x), negate), Keyword(BETWEEN),
          Infixed(LayoutOf(low), Keyword(AND), LayoutOf(high))));
    case QIsNull(x, negate) => ParenLeads(Infixed(LayoutOf(x), Keyword(IS), NullWord(negate)));
    case QWrap(x) => ParenLeads(LayoutOf(x));
    case QCase(c, a, b) => CaseLeads(LayoutOf(c), Cat(LayoutOf(a), Around(" ELSE ", LayoutOf(b), " END)")));
    case _ => CallsLead(q);
  }

  lemma CaseLeads(c: Layout, l: Layout)
    ensures !Dashed(Text(Cat(Around("(CASE WHEN ", c, " THEN "), l)))
  {
    var before := Around("(CASE WHEN ", c, " THEN ");
    assert Text(before) == "(CASE WHEN " + Text(before.right);
    CatLeads(before, l);
  }

  lemma CallsLead(q: Sq)
    requires q.QText? || q.QStar? || q.QAlias? || q.QSeconds? || q.QCast? || q.QTruncate? || q.QAbs?
    ensures !Dashed(Render(q))
  {
    if q.QCast? {
      AroundLeads("CAST(", LayoutOf(q.expr), if q.to.AsInteger? then " AS INTEGER)" else " AS REAL)");
    } else if q.QTruncate? {
      AroundLeads(LayoutOf(q).left.p.sqlite, LayoutOf(q.expr), LayoutOf(q).right.right.p.sqlite);
    } else if q.QAbs? {
      AroundLeads("ABS(", LayoutOf(q.expr), ")");
    } else {
      LeafLeads(LayoutOf(q).p);
    }
  }

  lemma LeafLeads(p: Piece)
    requires p.Quoted? || p.Alias? || p.Asterisk? || (p.Raw? && !Dashed(p.sqlite))
    ensures !Dashed(Text(Leaf(p)))
  {
    assert Text(Leaf(p)) == PieceText(p);
    assert p.Quoted? ==> PieceText(p)[0] == '\'';
    assert p.Alias? ==> PieceText(p)[0] == '"';
  }

  lemma NumberLeads(d: Decimal)
    ensures Dashed(Render(QNum(d))) <==> d.mantissa < 0
  {
    if d.mantissa < 0 {
      assert SignedText(d) == "-" + DecimalText(Decimal(-d.mantissa, d.scale));
    } else {
      assert SignedText(d) == DecimalText(d);
    }
  }

  lemma ColumnLeads(name: string)
    requires IsColumn(name)
    ensures !Dashed(name)
  {
  }

  /** Only a negative literal is written with a minus sign in front. */
  lemma LeadingMinus(e: Node, q: Sq, ctx: Ctx)
    requires Emit(e, ctx) == Success(q) && ctx.now >= 0
    ensures Dashed(Render(q)) <==> NegativeLiteral(e)
  {
    if q.QNum? {
      NumberLeads(q.value);
      NumberSource(e, q.value, ctx);
    } else if q.QCol? {
      ColumnSource(e, q.name, ctx);
      ColumnLeads(q.name);
    } else {
      OnlyNumbersLead(q);
    }
  }

  lemma NumberSource(e: Node, d: Decimal, ctx: Ctx)
    requires Emit(e, ctx) == Success(QNum(d)) && ctx.now >= 0
    ensures NegativeLiteral(e) <==> d.mantissa < 0
  {
    if e.Func? {
      assert FnOf(e.name).Now?;
    }
  }

  lemma ColumnSource(e: Node, name: string, ctx: Ctx)
    requires Emit(e, ctx) == Success(QCol(name))
    ensures e == Col(name) && IsColumn(name)
  {
  }

  /** The emitted expression is apart exactly when the source tree is. */
  predicate Follows(e: Node, ctx: Ctx) {
    Emit(e, ctx).Success? ==> (MinusApart(Emit(e, ctx).value) <==> SignsApart(e))
  }

  lemma OperandFollows(e: Node, against: Node, q: Sq, ctx: Ctx)
    requires Follows(e, ctx) && EmitOperand(e, against, ctx) == Success(q)
    ensures MinusApart(q) <==> SignsApart(e)
  {
  }

  lemma NegFollows(e: Node, ctx: Ctx)
    requires e.Neg? && Follows(e.operand, ctx) && ctx.now >= 0
    ensures Follows(e, ctx)
  {
    if Emit(e, ctx).Success? {
      LeadingMinus(e.operand, Emit(e.operand, ctx).value, ctx);
    }
  }

  lemma BinaryFollows(e: Node, ctx: Ctx)
    requires e.Binary? && Follows(e.left, ctx) && Follows(e.right, ctx)
    ensures Follows(e, ctx)
  {
    if Emit(e, ctx).Success? && e.op.IsCompare() {
      var q := Emit(e, ctx).value;
      OperandFollows(e.left, e.right, q.left, ctx);
      OperandFollows(e.right, e.left, q.right, ctx);
    }
  }

  lemma InFollows(e: Node, ctx: Ctx)
    requires e.In? && Follows(e.expr, ctx) && forall i :: 0 <= i < |e.list| ==> Follows(e.list[i], ctx)
    ensures Follows(e, ctx)
  {
    if Emit(e, ctx).Success? {
      var q := Emit(e, ctx).value;
      forall i | 0 <= i < |e.list| ensures MinusApart(q.list[i]) <==> SignsApart(e.list[i]) {
        ItemsEmitted(e.list, e.expr, q.list, ctx, i);
        OperandFollows(e.list[i], e.expr, q.list[i], ctx);
      }
    }
  }

  lemma BetweenFollows(e: Node, ctx: Ctx)
    requires e.Between? && Follows(e.expr, ctx) && Follows(e.low, ctx) && Follows(e.high, ctx)
    ensures Follows(e, ctx)
  {
    if Emit(e, ctx).Success? {
      var q := Emit(e, ctx).value;
      OperandFollows(e.low, e.expr, q.low, ctx);
      OperandFollows(e.high, e.expr, q.high, ctx);
    }
  }

  lemma FuncFollows(e: Node, ctx: Ctx)
    requires e.Func? && forall i :: 0 <= i < |e.args| ==> Follows(e.args[i], ctx)
    ensures Follows(e, ctx)
  {
    if Emit(e, ctx).Success? {
      var a := EmitArgs(e.args, ctx).value;
      forall i | 0 <= i < |e.args| ensures MinusApart(a[i]) <==> SignsApart(e.args[i]) {
        ArgsEmitted(e.args, a, ctx, i);
      }
      FnFollows(FnOf(e.name), e.name, e.args, a, Emit(e, ctx).value, ctx);
    }
  }

  lemma FnFollows(fn: Fn, name: string, args: seq<Node>, a: seq<Sq>, q: Sq, ctx: Ctx)
    requires |a| == |args| && Arity(fn, |args|) && EmitFn(fn, name, args, a, ctx) == Success(q)
    requires forall i :: 0 <= i < |args| ==> (MinusApart(a[i]) <==> SignsApart(args[i]))
    ensures MinusApart(q) <==> forall i :: 0 <= i < |args| ==> SignsApart(args[i])
  {
    if TakesTime(fn) {
      var x := if args[0].Str? then ParseDate(args[0].text, ctx).value else a[0];
      assert MinusApart(x) <==> SignsApart(args[0]);
      RestIsLiteral(fn, name, args, x, q);
      TimeFnFollows(fn, name, args, x, q);
    } else {
      PlainFnFollows(fn, name, args, a, q, ctx);
    }
  }

  lemma PlainFnFollows(fn: Fn, name: string, args: seq<Node>, a: seq<Sq>, q: Sq, ctx: Ctx)
    requires |a| == |args| && Arity(fn, |args|) && !TakesTime(fn) && EmitFn(fn, name, args, a, ctx) == Success(q)
    requires forall i :: 0 <= i < |args| ==> (MinusApart(a[i]) <==> SignsApart(args[i]))
    ensures MinusApart(q) <==> forall i :: 0 <= i < |args| ==> SignsApart(args[i])
  {
    if fn.IntDiv? {
      assert MinusApart(QCast(a[0], AsInteger)) == MinusApart(a[0])
          && MinusApart(QCast(a[1], AsInteger)) == MinusApart(a[1]);
    }
  }

  /** Every argument of a date function but the first is a literal. */
  lemma RestIsLiteral(fn: Fn, name: string, args: seq<Node>, x: Sq, q: Sq)
    requires TakesTime(fn) && Arity(fn, |args|) && ZonesOk(fn, args) && EmitTimeFn(fn, name, args, x) == Success(q)
    ensures forall i :: 0 < i < |args| ==> SignsApart(args[i])
  {
    forall i | 0 < i < |args| ensures SignsApart(args[i]) {
      if i == 1 && (fn.StartOfInterval? || fn.StartOfWeek?) {
        assert args[1].Interval? || args[1].Str? || args[1].Num?;
      } else {
        assert args[i].Str?;
      }
    }
  }

  lemma TimeFnFollows(fn: Fn, name: string, args: seq<Node>, x: Sq, q: Sq)
    requires TakesTime(fn) && Arity(fn, |args|) && EmitTimeFn(fn, name, args, x) == Success(q)
    ensures MinusApart(q) <==> MinusApart(x)
  {
    match fn
    case StartOf(secs) => BucketApart(x, Decimal(secs, 0));
    case ToDate => BucketApart(x, Decimal(86400, 0));
    case StartOfInterval => BucketApart(x, args[1].seconds);
    case _ =>
  }

  lemma BucketApart(x: Sq, secs: Decimal)
    ensures MinusApart(Bucket(x, secs)) <==> MinusApart(x)
  {
    assert MinusApart(QCast(x, AsInteger)) == MinusApart(x);
    assert MinusApart(QBin(Div, QCast(x, AsInteger), QNum(secs))) == MinusApart(x);
  }

  lemma {:induction false} EmitFollows(e: Node, ctx: Ctx)
    requires ctx.now >= 0
    ensures Follows(e, ctx)
  {
    match e
    case Neg(x) =>
      EmitFollows(x, ctx);
      NegFollows(e, ctx);
    case Not(x) => EmitFollows(x, ctx);
    case Binary(_, l, r) =>
      EmitFollows(l, ctx);
      EmitFollows(r, ctx);
      BinaryFollows(e, ctx);
    case In(x, list, _) =>
      EmitFollows(x, ctx);
      forall i | 0 <= i < |list| ensures Follows(list[i], ctx) {
        EmitFollows(list[i], ctx);
      }
      InFollows(e, ctx);
    case Like(x, p, _) =>
      EmitFollows(x, ctx);
      EmitFollows(p, ctx);
    case Between(x, low, high, _) =>
      EmitFollows(x, ctx);
      EmitFollows(low, ctx);
      EmitFollows(high, ctx);
      BetweenFollows(e, ctx);
    case IsNull(x, _) => EmitFollows(x, ctx);
    case Func(_, args, _, _) =>
      forall i | 0 <= i < |args| ensures Follows(args[i], ctx) {
        EmitFollows(args[i], ctx);
      }
      FuncFollows(e, ctx);
    case _ =>
  }

  /** Nowhere in the emitted text do two minus signs meet, exactly when the source puts none before a negative
      interval. */
  lemma NoCommentIff(e: Node, q: Sq, ctx: Ctx, rest: string)
    requires Emit(e, ctx) == Success(q) && ctx.now >= 0
    ensures Apart(LayoutOf(q), rest) <==> SignsApart(e)
  {
    EmitFollows(e, ctx);
    TextApart(q);
  }

  // ---- What the tokenizer makes of it ----

  lemma {:induction false} NoLineBreak(s: string)
    requires '\n' !in s
    ensures AfterLine(s) == ""
  {
    if s != "" {
      NoLineBreak(s[1..]);
    }
  }

  /** A minus sign in front of a negative number opens a comment, which swallows the rest of the line. */
  lemma ReadsAsComment(d: Decimal, rest: string)
    requires d.mantissa < 0 && '\n' !in rest
    ensures Lex(Render(QNeg(QNum(d))) + rest) == Success([OPEN])
  {
    var digits := DecimalText(Decimal(-d.mantissa, d.scale));
    CommentText(d, digits, rest);
    NumberHasNoBreak(Decimal(-d.mantissa, d.scale));
    CommentReads(digits + (")" + rest));
  }

  lemma CommentReads(tail: string)
    requires '\n' !in tail
    ensures Lex("(" + ("--" + tail)) == Success([OPEN])
  {
    ReadsPunct('(', "--" + tail);
    assert ("--" + tail)[2..] == tail;
    NoLineBreak(tail);
    assert Lex("--" + tail) == Success([]);
    assert MakeToken(PunctTok, "(") == OPEN && [OPEN] + [] == [OPEN];
  }

  lemma DashDash(digits: string, rest: string)
    ensures ("(" + (("-" + ("-" + digits)) + ")")) + rest == "(" + ("--" + (digits + (")" + rest)))
  {
    assert "-" + ("-" + digits) == "--" + digits;
    assert ("--" + digits) + ")" == "--" + (digits + ")");
    assert ("--" + (digits + ")")) + rest == "--" + ((digits + ")") + rest);
    assert (digits + ")") + rest == digits + (")" + rest);
    assert ("(" + ("--" + (digits + ")"))) + rest == "(" + (("--" + (digits + ")")) + rest);
  }

  lemma CommentLayout(l: Layout, digits: string, rest: string)
    requires Text(l) == "-" + digits
    ensures Text(Paren(Cat(Leaf(Minus), l))) + rest == "(" + ("--" + (digits + (")" + rest)))
  {
    assert Text(Leaf(Minus)) == "-";
    ParenText(Cat(Leaf(Minus), l));
    DashDash(digits, rest);
  }

  lemma CommentText(d: Decimal, digits: string, rest: string)
    requires SignedText(d) == "-" + digits
    ensures Render(QNeg(QNum(d))) + rest == "(" + ("--" + (digits + (")" + rest)))
  {
    CommentLayout(Leaf(Number(d)), digits, rest);
    assert LayoutOf(QNum(d)) == Leaf(Number(d));
  }

  lemma NumberHasNoBreak(d: Decimal)
    requires d.mantissa >= 0
    ensures '\n' !in DecimalText(d)
  {
  }

  lemma NegativeNotCut(d: Decimal, rest: string)
    requires d.mantissa < 0 && '\n' !in rest
    ensures !SqlText.Reads(Render(QNeg(QNum(d))), LayoutToks(LayoutOf(QNeg(QNum(d)))), rest)
  {
    var inner := Cat(Leaf(Minus), Leaf(Number(d)));
    var toks := LayoutToks(Paren(inner));
    assert LayoutOf(QNeg(QNum(d))) == Paren(inner);
    SqlReparse.ParenToks(inner);
    ReadsAsComment(d, rest);
    assert Push(toks, Lex(rest)) != Success([OPEN]);
  }

  /** The text of a minus sign in front of a plain expression is cut as intended exactly when that is no negative
      number. */
  lemma MinusCutIff(x: Sq, rest: string)
    requires PlainSq(x) && Boundary(rest) && '\n' !in rest
    ensures SqlText.Reads(Render(QNeg(x)), LayoutToks(LayoutOf(QNeg(x))), rest) <==> !NegativeNumber(x)
  {
    if NegativeNumber(x) {
      NegativeNotCut(x.value, rest);
    } else {
      FineExpr(QNeg(x), rest);
      ReadsLayout(LayoutOf(QNeg(x)), rest);
    }
  }

  // ---- What this means for the meaning ----

  lemma {:induction false} FaithfulIsApart(e: Node)
    ensures SqlMeaningProof.Faithful(e) ==> SignsApart(e)
  {
    match e
    case Neg(x) => FaithfulIsApart(x);
    case Not(x) => FaithfulIsApart(x);
    case Binary(_, l, r) =>
      FaithfulIsApart(l);
      FaithfulIsApart(r);
    case In(x, list, _) =>
      FaithfulIsApart(x);
      forall i | 0 <= i < |list| ensures SqlMeaningProof.Faithful(list[i]) ==> SignsApart(list[i]) {
        FaithfulIsApart(list[i]);
      }
    case Like(x, p, _) =>
      FaithfulIsApart(x);
      FaithfulIsApart(p);
    case Between(x, low, high, _) =>
      FaithfulIsApart(x);
      FaithfulIsApart(low);
      FaithfulIsApart(high);
    case IsNull(x, _) => FaithfulIsApart(x);
    case Func(_, args, _, _) =>
      forall i | 0 <= i < |args| ensures SqlMeaningProof.Faithful(args[i]) ==> SignsApart(args[i]) {
        FaithfulIsApart(args[i]);
      }
    case _ =>
  }

  /** On the faithful fragment the tree has the meaning of the source, and its text holds no comment. */
  lemma PreservedText(e: Node, q: Sq, row: SqlMeaning.Row, crow: SqlMeaning.CRow, ctx: Ctx, like: SqlMeaning.Matcher,
                      rest: string)
    requires SqlMeaningProof.Stores(row, crow) && SqlMeaningProof.Faithful(e) && Emit(e, ctx) == Success(q)
    requires ctx.now >= 0
    ensures SqlMeaningProof.Same(q, row, SqlMeaning.Mean(e, crow, ctx, like), like) && Apart(LayoutOf(q), rest)
  {
    SqlMeaningProof.Preserved(e, q, row, crow, ctx, like);
    FaithfulIsApart(e);
    NoCommentIff(e, q, ctx, rest);
  }

  /** `-INTERVAL '-1' DAY`: a plain 86400, emitted as `(--86400)`, of which a reader sees the bracket and a comment. */
  lemma NegatedIntervalWitness(amount: string, day: string, crow: SqlMeaning.CRow, ctx: Ctx, like: SqlMeaning.Matcher)
    requires amount == "-1" && day == "DAY"
    ensures var e, d := Neg(Interval(Decimal(-86400, 0))), Decimal(-86400, 0);
            && ParseExpr([OpToken(Sub), KwToken(INTERVAL), MakeToken(StrTok, amount), MakeToken(IdentTok, day)], 0)
               == Ok(e, [])
            && SqlMeaning.Mean(e, crow, ctx, like) == Some(SqlMeaning.CNum(86400.0))
            && Emit(e, ctx) == Success(QNeg(QNum(d)))
            && Render(QNeg(QNum(d))) == "(--86400)" && Lex(Render(QNeg(QNum(d)))) == Success([OPEN])
  {
    var n, unit := MakeToken(StrTok, amount), MakeToken(IdentTok, day);
    MinusOne(amount);
    DayUnit(day);
    ReadsInterval(KwToken(INTERVAL), n, unit);
    MeansADay(crow, ctx, like);
    TextOfDay();
  }

  lemma MeansADay(crow: SqlMeaning.CRow, ctx: Ctx, like: SqlMeaning.Matcher)
    ensures var e := Neg(Interval(Decimal(-86400, 0)));
            && SqlMeaning.Mean(e, crow, ctx, like) == Some(SqlMeaning.CNum(86400.0))
            && Emit(e, ctx) == Success(QNeg(QNum(Decimal(-86400, 0))))
  {
    assert SqlNumbers.Pow10(0) == 1.0 && SqlNumbers.DecimalValue(Decimal(-86400, 0)) == -86400.0;
  }

  lemma DigitsOfDay()
    ensures SignedText(Decimal(-86400, 0)) == "-" + "86400"
  {
    assert NatText(8) == "8" && NatText(86) == "86" && NatText(864) == "864" && NatText(8640) == "8640";
    assert NatText(86400) == "86400";
    assert Padded(Decimal(86400, 0)) == "86400";
  }

  lemma WholeText(d: Decimal, digits: string, text: string)
    requires d.mantissa < 0 && SignedText(d) == "-" + digits && text == "(" + ("--" + (digits + ")"))
    ensures Render(QNeg(QNum(d))) == text && Lex(Render(QNeg(QNum(d)))) == Success([OPEN])
  {
    var whole := Render(QNeg(QNum(d)));
    CommentText(d, digits, "");
    ReadsAsComment(d, "");
    assert whole + "" == whole && ")" + "" == ")";
  }

  lemma TextOfDay()
    ensures var q := QNeg(QNum(Decimal(-86400, 0))); Render(q) == "(--86400)" && Lex(Render(q)) == Success([OPEN])
  {
    DigitsOfDay();
    WholeText(Decimal(-86400, 0), "86400", "(--86400)");
  }

  lemma MinusOne(amount: string)
    requires amount == "-1"
    ensures JsNumber(amount) == Some(Decimal(-1, 0))
  {
    assert NatText(1) == "1" && Padded(Decimal(1, 0)) == "1";
    assert SignedText(Decimal(-1, 0)) == amount;
    SignedRoundTrip(Decimal(-1, 0));
  }

  lemma DayUnit(day: string)
    requires day == "DAY"
    ensures MakeToken(IdentTok, day).upper == Unit(86400)
  {
    assert ToUpper(day) == day;
  }

  lemma ReadsInterval(kw: Token, n: Token, unit: Token)
    requires kw.IsWord(INTERVAL) && JsNumber(n.value) == Some(Decimal(-1, 0)) && unit.upper == Unit(86400)
    ensures ParseExpr([OpToken(Sub), kw, n, unit], 0) == Ok(Neg(Interval(Decimal(-86400, 0))), [])
  {
    var ts := [OpToken(Sub), kw, n, unit];
    assert ts[1..] == [kw, n, unit] && ts[1..][1..] == [n, unit] && [n, unit][2..] == [];
    assert ParsePrimary([kw, n, unit]) == Ok(Interval(Times(Decimal(-1, 0), 86400)), []);
    assert ParseUnary(ts) == Ok(Neg(Interval(Decimal(-86400, 0))), []);
  }
}

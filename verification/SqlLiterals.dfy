/** Date literals facing a moved timestamp: exactly when the emitted comparison keeps its meaning on every stored
    row. */
module SqlLiterals {
  import opened Basics
  import opened SqlNumbers
  import opened SqlTokens
  import opened SqlSyntax
  import opened SqlEmit
  import opened SqlMeaning
  import opened SqlMeaningProof
  import opened SqlBorders

  // ---- The timestamp, moved ----

  function Step(e: Node): Option<real> {
    match e
    case Num(d) => Some(DecimalValue(d))
    case Interval(d) => Some(DecimalValue(d))
    case _ => None
  }

  /** By how many seconds an expression moves the timestamp, if that is all it does. */
  function Moved(x: Node): Option<real> {
    match x
    case Col(name) => if name == "timestamp" then Some(0.0) else None
    case Binary(op, l, r) =>
      if op.Add? && Step(r).Some? then
        var k :- Moved(l);
        Some(k + Step(r).value)
      else if op.Add? && Step(l).Some? then
        var k :- Moved(r);
        Some(k + Step(l).value)
      else if op.Sub? && Step(r).Some? then
        var k :- Moved(l);
        Some(k - Step(r).value)
      else None
    case Func(name, args, _, _) => if CallOf(name) == Some(ToInstant) && |args| == 1 then Moved(args[0]) else None
    case _ => None
  }

  lemma StepIs(e: Node, crow: CRow, ctx: Ctx, like: Matcher)
    requires Step(e).Some?
    ensures Mean(e, crow, ctx, like) == Some(CNum(Step(e).value)) && !Timed(e) && Faithful(e) && Emit(e, ctx).Success?
  {
  }

  lemma AddIs(l: Node, r: Node, a: real, b: real, crow: CRow, ctx: Ctx, like: Matcher)
    requires Mean(l, crow, ctx, like) == Some(CTime(a)) || Mean(l, crow, ctx, like) == Some(CNum(a))
    requires Mean(r, crow, ctx, like) == Some(CTime(b)) || Mean(r, crow, ctx, like) == Some(CNum(b))
    requires Mean(l, crow, ctx, like).value.CTime? != Mean(r, crow, ctx, like).value.CTime?
    ensures Mean(Binary(Add, l, r), crow, ctx, like) == Some(CTime(a + b))
  {
  }

  lemma SubIs(l: Node, r: Node, a: real, b: real, crow: CRow, ctx: Ctx, like: Matcher)
    requires Mean(l, crow, ctx, like) == Some(CTime(a)) && Mean(r, crow, ctx, like) == Some(CNum(b))
    ensures Mean(Binary(Sub, l, r), crow, ctx, like) == Some(CTime(a - b))
  {
  }

  lemma ToDateTimeIs(e: Node, t: real, crow: CRow, ctx: Ctx, like: Matcher)
    requires e.Func? && CallOf(e.name) == Some(ToInstant) && |e.args| == 1 && !e.args[0].Str?
    requires Mean(e.args[0], crow, ctx, like) == Some(CTime(t)) && Emit(e.args[0], ctx).Success?
    ensures Mean(e, crow, ctx, like) == Some(CTime(t)) && Emit(e, ctx).Success?
  {
    NameStands(e.name);
    assert e.args[1..] == [];
    assert EmitArgs(e.args, ctx).Success?;
  }

  /** It is a DateTime, and it is emitted. */
  lemma {:induction false} MovedIs(x: Node, crow: CRow, ctx: Ctx, like: Matcher)
    requires Moved(x).Some?
    ensures Mean(x, crow, ctx, like) == Some(CTime(crow.seconds + Moved(x).value))
    ensures Timed(x) && Faithful(x) && Emit(x, ctx).Success?
    decreases x, 1
  {
    match x
    case Binary(_, _, _) => MovedBinary(x, crow, ctx, like);
    case Func(name, args, _, _) =>
      MovedIs(args[0], crow, ctx, like);
      ToDateTimeIs(x, crow.seconds + Moved(args[0]).value, crow, ctx, like);
    case Col(_) =>
  }

  lemma {:induction false} MovedBinary(x: Node, crow: CRow, ctx: Ctx, like: Matcher)
    requires x.Binary? && Moved(x).Some?
    ensures Mean(x, crow, ctx, like) == Some(CTime(crow.seconds + Moved(x).value))
    ensures Timed(x) && Faithful(x) && Emit(x, ctx).Success?
    decreases x, 0
  {
    var Binary(op, l, r) := x;
    var s := crow.seconds;
    if Step(r).Some? {
      MovedIs(l, crow, ctx, like);
      StepIs(r, crow, ctx, like);
      if op.Add? {
        AddIs(l, r, s + Moved(l).value, Step(r).value, crow, ctx, like);
      } else {
        SubIs(l, r, s + Moved(l).value, Step(r).value, crow, ctx, like);
      }
    } else {
      MovedIs(r, crow, ctx, like);
      StepIs(l, crow, ctx, like);
      AddIs(l, r, Step(l).value, s + Moved(r).value, crow, ctx, like);
    }
  }

  /** The part of an expression that decides its type: behind minus signs, and the second argument of `if`. */
  function Deciding(e: Node): Node {
    match e
    case Neg(x) => Deciding(x)
    case Func(name, args, _, _) => if CallOf(name) == Some(Choice) && |args| > 1 then Deciding(args[1]) else e
    case _ => e
  }

  /** The type inference sees a DateTime exactly when that is the timestamp or a call that yields one. */
  lemma {:induction false} TypeSeen(e: Node)
    ensures InferType(e).IsTime() <==>
            var d := Deciding(e);
            || d == Col("timestamp")
            || (d.Func? && CallOf(d.name).Some?
                && (CallOf(d.name).value.Present?
                    || (CallOf(d.name).value.OfInstant() && !CallOf(d.name).value.Epoch?)))
  {
    match e
    case Neg(x) => TypeSeen(x);
    case Func(name, args, _, _) =>
      NameStands(name);
      if CallOf(name) == Some(Choice) && |args| > 1 {
        TypeSeen(args[1]);
      }
    case _ =>
  }

  /** Only arithmetic on top hides that. */
  lemma HiddenIsArithmetic(x: Node)
    requires Moved(x).Some? && !InferType(x).IsTime()
    ensures x.Binary? && (x.op.Add? || x.op.Sub?)
  {
  }

  lemma TimeEvaluates(x: Node, q: Sq, row: Row, crow: CRow, ctx: Ctx, like: Matcher)
    requires Emit(x, ctx) == Success(q) && Stores(row, crow) && Faithful(x)
    requires Mean(x, crow, ctx, like).Some? && Mean(x, crow, ctx, like).value.CTime?
    ensures Eval(q, row, like).Some? && IsNumber(Eval(q, row, like).value)
  {
    Preserved(x, q, row, crow, ctx, like);
    assert Agree(Eval(q, row, like).value, Mean(x, crow, ctx, like).value);
  }

  /** The emitted expression keeps its meaning on every stored row. */
  ghost predicate Kept(e: Node, q: Sq, ctx: Ctx, like: Matcher) {
    forall row, crow :: Stores(row, crow) ==> Same(q, row, Mean(e, crow, ctx, like), like)
  }

  lemma FaithfulIsKept(e: Node, q: Sq, ctx: Ctx, like: Matcher)
    requires Faithful(e) && Emit(e, ctx) == Success(q)
    ensures Kept(e, q, ctx, like)
  {
    forall row, crow | Stores(row, crow) ensures Same(q, row, Mean(e, crow, ctx, like), like) {
      Preserved(e, q, row, crow, ctx, like);
    }
  }

  function RowAt(ms: int): Row {
    Row(ms, map[])
  }

  function CRowAt(ms: int): CRow {
    CRow(ms as real / 1000.0, map[])
  }

  lemma StoredAt(ms: int)
    ensures Stores(RowAt(ms), CRowAt(ms))
  {
  }

  lemma WrongAt(e: Node, q: Sq, ms: int, ctx: Ctx, like: Matcher)
    requires !Same(q, RowAt(ms), Mean(e, CRowAt(ms), ctx, like), like)
    ensures !Kept(e, q, ctx, like)
  {
    StoredAt(ms);
  }

  // ---- Which instants a row can hold ----

  function Instant(ms: int, k: real): real {
    ms as real / 1000.0 + k
  }

  function MsAt(k: real, n: int): int {
    (1000.0 * (n as real - k)).Floor
  }

  lemma ReachedWhenWhole(k: real, n: int)
    requires Whole(1000.0 * k)
    ensures Instant(MsAt(k, n), k) == n as real
  {
    var a := (1000.0 * k).Floor;
    Thousandths(k, a);
    var ms := 1000 * n - a;
    Thousandths(n as real - k, ms);
    assert MsAt(k, n) == ms;
  }

  lemma Thousandths(x: real, a: int)
    requires 1000.0 * x == a as real
    ensures x == a as real / 1000.0
  {
  }

  lemma NeverReached(k: real, n: int, ms: int)
    requires !Whole(1000.0 * k)
    ensures Instant(ms, k) != n as real
  {
    if Instant(ms, k) == n as real {
      ReachedOnlyWhenWhole(k, n, ms);
    }
  }

  lemma ReachedOnlyWhenWhole(k: real, n: int, ms: int)
    requires Instant(ms, k) == n as real
    ensures Whole(1000.0 * k)
  {
    assert 1000.0 * k == (1000 * n - ms) as real;
  }

  lemma LaterRow(k: real, n: int)
    ensures n as real < Instant(MsAt(k, n) + 1, k) <= n as real + 0.001
  {
  }

  // ---- One row ----

  predicate BelowText(op: BinOp) {
    op.Lt? || op.Le? || op.Ne? || op.LtGt?
  }

  /** A date literal facing DateTime arithmetic stays text, and SQLite sorts every number before every text:
      the result ignores the literal. */
  lemma ArithmeticIgnoresLiteral(op: BinOp, x: Node, text: string, q: Sq, row: Row, crow: CRow, ctx: Ctx, like: Matcher)
    requires op.IsCompare() && x.Binary? && (x.op.Add? || x.op.Sub?) && Stores(row, crow) && Faithful(x)
    requires Emit(x, ctx) == Success(q) && Mean(x, crow, ctx, like).Some? && Mean(x, crow, ctx, like).value.CTime?
    ensures var whole := QBin(if op.LtGt? then Ne else op, q, QText(text));
            && Emit(Binary(op, x, Str(text)), ctx) == Success(whole)
            && Eval(whole, row, like) == Some(OfBool(BelowText(op)))
  {
    RightEmitted(op, x, text, q, ctx);
    TimeEvaluates(x, q, row, crow, ctx, like);
    NumberBelowText(if op.LtGt? then Ne else op, Eval(q, row, like).value, text);
  }

  lemma RightEmitted(op: BinOp, x: Node, text: string, q: Sq, ctx: Ctx)
    requires op.IsCompare() && !x.Str? && !InferType(x).IsTime() && Emit(x, ctx) == Success(q)
    ensures Emit(Binary(op, x, Str(text)), ctx) == Success(QBin(if op.LtGt? then Ne else op, q, QText(text)))
  {
    assert EmitOperand(x, Str(text), ctx) == Success(q);
    assert EmitOperand(Str(text), x, ctx) == Success(QText(text));
  }

  lemma NumberBelowText(op: BinOp, v: Val, text: string)
    requires op.IsCompare() && IsNumber(v)
    ensures Compare(op, v, VText(text)) == ToTri(BelowText(op))
  {
  }

  /** So it is right exactly when the true comparison of the instants happens to agree. */
  lemma LiteralFacingArithmetic(op: BinOp, x: Node, text: string, whole: Sq, n: int, row: Row, crow: CRow, ctx: Ctx,
                                like: Matcher)
    requires op.IsCompare() && x.Binary? && (x.op.Add? || x.op.Sub?) && Stores(row, crow) && Faithful(x)
    requires Emit(x, ctx).Success? && Mean(x, crow, ctx, like).Some? && Mean(x, crow, ctx, like).value.CTime?
    requires ctx.dates(text) == Some(n) && Emit(Binary(op, x, Str(text)), ctx) == Success(whole)
    ensures Same(whole, row, Mean(Binary(op, x, Str(text)), crow, ctx, like), like) <==>
            Holds(op, RealLess(), Mean(x, crow, ctx, like).value.t, n as real) == BelowText(op)
  {
    ArithmeticIgnoresLiteral(op, x, text, Emit(x, ctx).value, row, crow, ctx, like);
    MeanOfDateComparison(op, x, text, n, crow, ctx, like);
  }

  lemma MeanOfDateComparison(op: BinOp, x: Node, text: string, n: int, crow: CRow, ctx: Ctx, like: Matcher)
    requires op.IsCompare() && !x.Str? && Mean(x, crow, ctx, like).Some? && Mean(x, crow, ctx, like).value.CTime?
    requires ctx.dates(text) == Some(n)
    ensures Mean(Binary(op, x, Str(text)), crow, ctx, like)
         == Some(COfTri(ToTri(Holds(op, RealLess(), Mean(x, crow, ctx, like).value.t, n as real))))
  {
  }

  // ---- Every row ----

  predicate Equates(op: BinOp) {
    op.Eq? || op.Ne? || op.LtGt?
  }

  /** A row on which the text comparison answers wrongly: just after the literal's instant, or at it. */
  lemma WrongRow(op: BinOp, k: real, n: int) returns (ms: int)
    requires op.IsCompare() && (Equates(op) ==> Whole(1000.0 * k))
    ensures Holds(op, RealLess(), Instant(ms, k), n as real) != BelowText(op)
  {
    if Equates(op) {
      ms := MsAt(k, n);
      ReachedWhenWhole(k, n);
    } else {
      ms := MsAt(k, n) + 1;
      LaterRow(k, n);
    }
  }

  /** A date literal facing the moved timestamp: the meaning is kept on every stored row exactly when the type inference
      sees a DateTime, or the question is one of equality and no stored millisecond can meet a whole second. */
  lemma RightLiteralKeptIff(op: BinOp, x: Node, text: string, n: int, whole: Sq, ctx: Ctx, like: Matcher)
    requires op.IsCompare() && Moved(x).Some? && ctx.dates(text) == Some(n)
    requires Emit(Binary(op, x, Str(text)), ctx) == Success(whole)
    ensures Kept(Binary(op, x, Str(text)), whole, ctx, like) <==>
            InferType(x).IsTime() || (Equates(op) && !Whole(1000.0 * Moved(x).value))
  {
    if InferType(x).IsTime() {
      TimedIsKept(Binary(op, x, Str(text)), op, x, text, whole, ctx, like);
    } else if Equates(op) && !Whole(1000.0 * Moved(x).value) {
      RightUnreached(op, x, text, n, whole, ctx, like);
    } else {
      RightWrong(op, x, text, n, whole, ctx, like);
    }
  }

  /** A literal that the inference sees facing a DateTime becomes the date it is. */
  lemma TimedIsKept(e: Node, op: BinOp, x: Node, text: string, whole: Sq, ctx: Ctx, like: Matcher)
    requires Moved(x).Some? && InferType(x).IsTime() && op.IsCompare() && Emit(e, ctx) == Success(whole)
    requires e == Binary(op, x, Str(text)) || e == Binary(op, Str(text), x)
    ensures Kept(e, whole, ctx, like)
  {
    MovedIs(x, CRowAt(0), ctx, like);
    assert Faithful(e);
    FaithfulIsKept(e, whole, ctx, like);
  }

  lemma RightUnreached(op: BinOp, x: Node, text: string, n: int, whole: Sq, ctx: Ctx, like: Matcher)
    requires op.IsCompare() && Moved(x).Some? && ctx.dates(text) == Some(n) && !InferType(x).IsTime()
    requires Emit(Binary(op, x, Str(text)), ctx) == Success(whole)
    requires Equates(op) && !Whole(1000.0 * Moved(x).value)
    ensures Kept(Binary(op, x, Str(text)), whole, ctx, like)
  {
    forall row, crow | Stores(row, crow)
      ensures Same(whole, row, Mean(Binary(op, x, Str(text)), crow, ctx, like), like)
    {
      RightOnRow(op, x, text, n, whole, row, crow, ctx, like);
      NeverReached(Moved(x).value, n, row.ms);
    }
  }

  lemma RightWrong(op: BinOp, x: Node, text: string, n: int, whole: Sq, ctx: Ctx, like: Matcher)
    requires op.IsCompare() && Moved(x).Some? && ctx.dates(text) == Some(n) && !InferType(x).IsTime()
    requires Emit(Binary(op, x, Str(text)), ctx) == Success(whole)
    requires Equates(op) ==> Whole(1000.0 * Moved(x).value)
    ensures !Kept(Binary(op, x, Str(text)), whole, ctx, like)
  {
    var ms := WrongRow(op, Moved(x).value, n);
    StoredAt(ms);
    RightOnRow(op, x, text, n, whole, RowAt(ms), CRowAt(ms), ctx, like);
    WrongAt(Binary(op, x, Str(text)), whole, ms, ctx, like);
  }

  lemma RightOnRow(op: BinOp, x: Node, text: string, n: int, whole: Sq, row: Row, crow: CRow, ctx: Ctx, like: Matcher)
    requires op.IsCompare() && Moved(x).Some? && !InferType(x).IsTime() && ctx.dates(text) == Some(n)
    requires Emit(Binary(op, x, Str(text)), ctx) == Success(whole) && Stores(row, crow)
    ensures Same(whole, row, Mean(Binary(op, x, Str(text)), crow, ctx, like), like) <==>
            Holds(op, RealLess(), Instant(row.ms, Moved(x).value), n as real) == BelowText(op)
  {
    MovedIs(x, crow, ctx, like);
    HiddenIsArithmetic(x);
    LiteralFacingArithmetic(op, x, text, whole, n, row, crow, ctx, like);
  }

  // ---- The literal on the left ----

  function Flip(op: BinOp): BinOp {
    match op
    case Lt => Gt
    case Gt => Lt
    case Le => Ge
    case Ge => Le
    case _ => op
  }

  lemma FlipHolds(op: BinOp, a: real, b: real)
    requires op.IsCompare()
    ensures Flip(op).IsCompare() && Holds(op, RealLess(), a, b) == Holds(Flip(op), RealLess(), b, a)
    ensures Equates(op) == Equates(Flip(op))
  {
  }

  lemma TextAboveNumber(op: BinOp, v: Val, text: string)
    requires op.IsCompare() && IsNumber(v)
    ensures Compare(op, VText(text), v) == ToTri(BelowText(Flip(op)))
  {
  }

  /** As with the literal on the right, the other way round. */
  lemma LeftFacingArithmetic(op: BinOp, x: Node, text: string, whole: Sq, n: int, row: Row, crow: CRow, ctx: Ctx,
                             like: Matcher)
    requires op.IsCompare() && x.Binary? && (x.op.Add? || x.op.Sub?) && Stores(row, crow) && Faithful(x)
    requires Emit(x, ctx).Success? && Mean(x, crow, ctx, like).Some? && Mean(x, crow, ctx, like).value.CTime?
    requires ctx.dates(text) == Some(n) && Emit(Binary(op, Str(text), x), ctx) == Success(whole)
    ensures Same(whole, row, Mean(Binary(op, Str(text), x), crow, ctx, like), like) <==>
            Holds(Flip(op), RealLess(), Mean(x, crow, ctx, like).value.t, n as real) == BelowText(Flip(op))
  {
    LeftEvaluates(op, x, text, whole, row, crow, ctx, like);
    FlipHolds(op, n as real, Mean(x, crow, ctx, like).value.t);
    MeanOfLeft(op, x, text, n, crow, ctx, like);
  }

  lemma LeftOnRow(op: BinOp, x: Node, text: string, n: int, whole: Sq, row: Row, crow: CRow, ctx: Ctx, like: Matcher)
    requires op.IsCompare() && Moved(x).Some? && !InferType(x).IsTime() && ctx.dates(text) == Some(n)
    requires Emit(Binary(op, Str(text), x), ctx) == Success(whole) && Stores(row, crow)
    ensures Same(whole, row, Mean(Binary(op, Str(text), x), crow, ctx, like), like) <==>
            Holds(Flip(op), RealLess(), Instant(row.ms, Moved(x).value), n as real) == BelowText(Flip(op))
  {
    MovedIs(x, crow, ctx, like);
    HiddenIsArithmetic(x);
    LeftFacingArithmetic(op, x, text, whole, n, row, crow, ctx, like);
  }

  lemma LeftEvaluates(op: BinOp, x: Node, text: string, whole: Sq, row: Row, crow: CRow, ctx: Ctx, like: Matcher)
    requires op.IsCompare() && !x.Str? && !InferType(x).IsTime() && Emit(x, ctx).Success? && Faithful(x)
    requires Mean(x, crow, ctx, like).Some? && Mean(x, crow, ctx, like).value.CTime?
    requires Emit(Binary(op, Str(text), x), ctx) == Success(whole) && Stores(row, crow)
    ensures Eval(whole, row, like) == Some(OfBool(BelowText(Flip(op))))
  {
    var q := Emit(x, ctx).value;
    TimeEvaluates(x, q, row, crow, ctx, like);
    LeftEmitted(op, x, text, q, whole, ctx);
    TextAboveNumber(if op.LtGt? then Ne else op, Eval(q, row, like).value, text);
  }

  lemma LeftEmitted(op: BinOp, x: Node, text: string, q: Sq, whole: Sq, ctx: Ctx)
    requires op.IsCompare() && !x.Str? && !InferType(x).IsTime() && Emit(x, ctx) == Success(q)
    requires Emit(Binary(op, Str(text), x), ctx) == Success(whole)
    ensures whole == QBin(if op.LtGt? then Ne else op, QText(text), q)
  {
    assert EmitOperand(x, Str(text), ctx) == Success(q);
    assert EmitOperand(Str(text), x, ctx) == Success(QText(text));
  }

  lemma MeanOfLeft(op: BinOp, x: Node, text: string, n: int, crow: CRow, ctx: Ctx, like: Matcher)
    requires op.IsCompare() && !x.Str? && Mean(x, crow, ctx, like).Some? && Mean(x, crow, ctx, like).value.CTime?
    requires ctx.dates(text) == Some(n)
    ensures Mean(Binary(op, Str(text), x), crow, ctx, like)
         == Some(COfTri(ToTri(Holds(op, RealLess(), n as real, Mean(x, crow, ctx, like).value.t))))
  {
  }

  /** The same with the literal on the left. */
  lemma LeftLiteralKeptIff(op: BinOp, x: Node, text: string, n: int, whole: Sq, ctx: Ctx, like: Matcher)
    requires op.IsCompare() && Moved(x).Some? && ctx.dates(text) == Some(n)
    requires Emit(Binary(op, Str(text), x), ctx) == Success(whole)
    ensures Kept(Binary(op, Str(text), x), whole, ctx, like) <==>
            InferType(x).IsTime() || (Equates(op) && !Whole(1000.0 * Moved(x).value))
  {
    if InferType(x).IsTime() {
      TimedIsKept(Binary(op, Str(text), x), op, x, text, whole, ctx, like);
    } else if Equates(op) && !Whole(1000.0 * Moved(x).value) {
      LeftUnreached(op, x, text, n, whole, ctx, like);
    } else {
      LeftWrong(op, x, text, n, whole, ctx, like);
    }
  }

  lemma LeftUnreached(op: BinOp, x: Node, text: string, n: int, whole: Sq, ctx: Ctx, like: Matcher)
    requires op.IsCompare() && Moved(x).Some? && ctx.dates(text) == Some(n) && !InferType(x).IsTime()
    requires Emit(Binary(op, Str(text), x), ctx) == Success(whole)
    requires Equates(op) && !Whole(1000.0 * Moved(x).value)
    ensures Kept(Binary(op, Str(text), x), whole, ctx, like)
  {
    forall row, crow | Stores(row, crow)
      ensures Same(whole, row, Mean(Binary(op, Str(text), x), crow, ctx, like), like)
    {
      LeftOnRow(op, x, text, n, whole, row, crow, ctx, like);
      NeverReached(Moved(x).value, n, row.ms);
    }
  }

  lemma LeftWrong(op: BinOp, x: Node, text: string, n: int, whole: Sq, ctx: Ctx, like: Matcher)
    requires op.IsCompare() && Moved(x).Some? && ctx.dates(text) == Some(n) && !InferType(x).IsTime()
    requires Emit(Binary(op, Str(text), x), ctx) == Success(whole)
    requires Equates(op) ==> Whole(1000.0 * Moved(x).value)
    ensures !Kept(Binary(op, Str(text), x), whole, ctx, like)
  {
    FlipHolds(op, 0.0, 0.0);
    var ms := WrongRow(Flip(op), Moved(x).value, n);
    StoredAt(ms);
    LeftOnRow(op, x, text, n, whole, RowAt(ms), CRowAt(ms), ctx, like);
    WrongAt(Binary(op, Str(text), x), whole, ms, ctx, like);
  }

  // ---- IN ----

  predicate DateLiterals(list: seq<Node>, ctx: Ctx) {
    forall i :: 0 <= i < |list| ==> list[i].Str? && ctx.dates(list[i].text).Some?
  }

  predicate Names(list: seq<Node>, t: real, ctx: Ctx)
    requires DateLiterals(list, ctx)
  {
    list != [] && (ctx.dates(list[0].text).value as real == t || Names(list[1..], t, ctx))
  }

  lemma {:induction false} MeanOfList(list: seq<Node>, t: real, crow: CRow, ctx: Ctx, like: Matcher)
    requires DateLiterals(list, ctx)
    ensures MeanIn(CTime(t), list, crow, ctx, like) == Some(ToTri(Names(list, t, ctx)))
  {
    if list != [] {
      MeanOfList(list[1..], t, crow, ctx, like);
    }
  }

  lemma {:induction false} TextsUnmatched(list: seq<Node>, x: Node, qs: seq<Sq>, v: Val, row: Row, ctx: Ctx,
                                          like: Matcher)
    requires DateLiterals(list, ctx) && !InferType(x).IsTime() && EmitList(list, x, ctx) == Success(qs) && IsNumber(v)
    ensures EvalIn(v, qs, row, like) == Some(False3)
  {
    if list != [] {
      assert EmitOperand(list[0], x, ctx) == Success(QText(list[0].text));
      assert EmitList(list[1..], x, ctx) == Success(qs[1..]);
      TextsUnmatched(list[1..], x, qs[1..], v, row, ctx, like);
    }
  }

  lemma InOnRow(x: Node, list: seq<Node>, negate: bool, whole: Sq, row: Row, crow: CRow, ctx: Ctx, like: Matcher)
    requires Moved(x).Some? && !InferType(x).IsTime() && DateLiterals(list, ctx)
    requires Emit(In(x, list, negate), ctx) == Success(whole) && Stores(row, crow)
    ensures Same(whole, row, Mean(In(x, list, negate), crow, ctx, like), like) <==>
            !Names(list, Instant(row.ms, Moved(x).value), ctx)
  {
    MovedIs(x, crow, ctx, like);
    InEvaluates(x, list, negate, whole, row, crow, ctx, like);
    MeanOfIn(x, list, negate, Instant(row.ms, Moved(x).value), crow, ctx, like);
    NeverNamed(whole, Mean(In(x, list, negate), crow, ctx, like), Names(list, Instant(row.ms, Moved(x).value), ctx),
        negate, row, like);
  }

  /** SQLite finds nothing in the list. */
  lemma NeverNamed(whole: Sq, c: Option<CVal>, named: bool, negate: bool, row: Row, like: Matcher)
    requires Eval(whole, row, like) == Some(OfTri(if negate then True3 else False3))
    requires c == Some(COfTri(ToTri(named != negate)))
    ensures Same(whole, row, c, like) <==> !named
  {
  }

  lemma InEvaluates(x: Node, list: seq<Node>, negate: bool, whole: Sq, row: Row, crow: CRow, ctx: Ctx, like: Matcher)
    requires Mean(x, crow, ctx, like).Some? && Mean(x, crow, ctx, like).value.CTime? && Faithful(x)
    requires !InferType(x).IsTime() && DateLiterals(list, ctx)
    requires Emit(In(x, list, negate), ctx) == Success(whole) && Stores(row, crow)
    ensures Eval(whole, row, like) == Some(OfTri(if negate then True3 else False3))
  {
    var q, items := Emit(x, ctx).value, EmitList(list, x, ctx).value;
    assert whole == QIn(q, items, negate);
    TimeEvaluates(x, q, row, crow, ctx, like);
    TextsUnmatched(list, x, items, Eval(q, row, like).value, row, ctx, like);
  }

  lemma MeanOfIn(x: Node, list: seq<Node>, negate: bool, t: real, crow: CRow, ctx: Ctx, like: Matcher)
    requires Mean(x, crow, ctx, like) == Some(CTime(t)) && DateLiterals(list, ctx)
    ensures Mean(In(x, list, negate), crow, ctx, like) == Some(COfTri(ToTri(Names(list, t, ctx) != negate)))
  {
    MeanOfList(list, t, crow, ctx, like);
  }

  lemma InFaithful(x: Node, list: seq<Node>, negate: bool, ctx: Ctx)
    requires Faithful(x) && InferType(x).IsTime() == Timed(x) && DateLiterals(list, ctx)
    ensures Faithful(In(x, list, negate))
  {
    forall i | 0 <= i < |list| ensures Faithful(list[i]) && LiteralOk(list[i], x) {
      assert list[i].Str?;
    }
  }

  lemma {:induction false} NoneNamed(list: seq<Node>, k: real, ms: int, ctx: Ctx)
    requires DateLiterals(list, ctx) && !Whole(1000.0 * k)
    ensures !Names(list, Instant(ms, k), ctx)
  {
    if list != [] {
      NeverReached(k, ctx.dates(list[0].text).value, ms);
      NoneNamed(list[1..], k, ms, ctx);
    }
  }

  /** A list of date literals, with NOT or without: kept exactly when the inference sees a DateTime, the list is
      empty, or no stored millisecond can meet a whole second. */
  lemma InKeptIff(x: Node, list: seq<Node>, negate: bool, whole: Sq, ctx: Ctx, like: Matcher)
    requires Moved(x).Some? && DateLiterals(list, ctx) && Emit(In(x, list, negate), ctx) == Success(whole)
    ensures Kept(In(x, list, negate), whole, ctx, like) <==>
            InferType(x).IsTime() || list == [] || !Whole(1000.0 * Moved(x).value)
  {
    var e, k := In(x, list, negate), Moved(x).value;
    MovedIs(x, CRowAt(0), ctx, like);
    if InferType(x).IsTime() {
      InFaithful(x, list, negate, ctx);
      FaithfulIsKept(e, whole, ctx, like);
    } else if list == [] || !Whole(1000.0 * k) {
      forall row, crow | Stores(row, crow) ensures Same(whole, row, Mean(e, crow, ctx, like), like) {
        InOnRow(x, list, negate, whole, row, crow, ctx, like);
        if list != [] {
          NoneNamed(list, k, row.ms, ctx);
        }
      }
    } else {
      var ms := MsAt(k, ctx.dates(list[0].text).value);
      ReachedWhenWhole(k, ctx.dates(list[0].text).value);
      StoredAt(ms);
      InOnRow(x, list, negate, whole, RowAt(ms), CRowAt(ms), ctx, like);
      WrongAt(e, whole, ms, ctx, like);
    }
  }

  // ---- BETWEEN ----

  lemma BetweenOnRow(x: Node, low: string, high: string, m: int, n: int, negate: bool, whole: Sq,
                     row: Row, crow: CRow, ctx: Ctx, like: Matcher)
    requires Moved(x).Some? && !InferType(x).IsTime() && ctx.dates(low) == Some(m) && ctx.dates(high) == Some(n)
    requires Emit(Between(x, Str(low), Str(high), negate), ctx) == Success(whole) && Stores(row, crow)
    ensures Same(whole, row, Mean(Between(x, Str(low), Str(high), negate), crow, ctx, like), like) <==>
            !(m as real <= Instant(row.ms, Moved(x).value) <= n as real)
  {
    MovedIs(x, crow, ctx, like);
    BetweenEmitted(x, low, high, negate, whole, ctx);
    BetweenEvaluates(x, low, high, negate, row, crow, ctx, like);
    MeanOfBetween(x, low, high, m, n, negate, crow, ctx, like);
  }

  lemma BetweenEvaluates(x: Node, low: string, high: string, negate: bool, row: Row, crow: CRow, ctx: Ctx,
                         like: Matcher)
    requires Emit(x, ctx).Success? && Stores(row, crow) && Faithful(x)
    requires Mean(x, crow, ctx, like).Some? && Mean(x, crow, ctx, like).value.CTime?
    ensures Eval(QBetween(Emit(x, ctx).value, QText(low), QText(high), negate), row, like)
         == Some(OfTri(if negate then True3 else False3))
  {
    var q := Emit(x, ctx).value;
    TimeEvaluates(x, q, row, crow, ctx, like);
    BetweenTexts(q, Eval(q, row, like).value, low, high, negate, row, like);
  }

  lemma BetweenTexts(q: Sq, v: Val, low: string, high: string, negate: bool, row: Row, like: Matcher)
    requires Eval(q, row, like) == Some(v) && IsNumber(v)
    ensures Eval(QBetween(q, QText(low), QText(high), negate), row, like) ==
              Some(OfTri(if negate then True3 else False3))
  {
    NumberBelowText(Ge, v, low);
    NumberBelowText(Le, v, high);
  }

  lemma BetweenEmitted(x: Node, low: string, high: string, negate: bool, whole: Sq, ctx: Ctx)
    requires !InferType(x).IsTime() && Emit(Between(x, Str(low), Str(high), negate), ctx) == Success(whole)
    ensures whole == QBetween(Emit(x, ctx).value, QText(low), QText(high), negate)
  {
    assert EmitOperand(Str(low), x, ctx) == Success(QText(low));
    assert EmitOperand(Str(high), x, ctx) == Success(QText(high));
  }

  lemma MeanOfBetween(x: Node, low: string, high: string, m: int, n: int, negate: bool, crow: CRow, ctx: Ctx,
                      like: Matcher)
    requires Mean(x, crow, ctx, like).Some? && Mean(x, crow, ctx, like).value.CTime?
    requires ctx.dates(low) == Some(m) && ctx.dates(high) == Some(n)
    ensures var t := Mean(x, crow, ctx, like).value.t;
            Some(COfTri(ToTri((m as real <= t <= n as real) != negate))) ==
            Mean(Between(x, Str(low), Str(high), negate), crow, ctx, like)
  {
  }

  /** Two literal bounds, with NOT or without: kept exactly when the inference sees a DateTime or no stored row lies
      between them. */
  lemma BetweenKeptIff(x: Node, low: string, high: string, m: int, n: int, negate: bool, whole: Sq, ctx: Ctx,
                       like: Matcher)
    requires Moved(x).Some? && ctx.dates(low) == Some(m) && ctx.dates(high) == Some(n)
    requires Emit(Between(x, Str(low), Str(high), negate), ctx) == Success(whole)
    ensures Kept(Between(x, Str(low), Str(high), negate), whole, ctx, like) <==>
            InferType(x).IsTime() || m > n || (m == n && !Whole(1000.0 * Moved(x).value))
  {
    var e, k := Between(x, Str(low), Str(high), negate), Moved(x).value;
    MovedIs(x, CRowAt(0), ctx, like);
    if InferType(x).IsTime() {
      FaithfulIsKept(e, whole, ctx, like);
    } else if m > n || (m == n && !Whole(1000.0 * k)) {
      forall row, crow | Stores(row, crow) ensures Same(whole, row, Mean(e, crow, ctx, like), like) {
        BetweenOnRow(x, low, high, m, n, negate, whole, row, crow, ctx, like);
        if m == n {
          NeverReached(k, n, row.ms);
        }
      }
    } else {
      var ms := if m < n then MsAt(k, m) + 1 else MsAt(k, m);
      if m < n {
        LaterRow(k, m);
      } else {
        ReachedWhenWhole(k, m);
      }
      StoredAt(ms);
      BetweenOnRow(x, low, high, m, n, negate, whole, RowAt(ms), CRowAt(ms), ctx, like);
      WrongAt(e, whole, ms, ctx, like);
    }
  }

  // ---- The bucket of the timestamp, moved ----

  /** A time bucket of the timestamp, moved by a constant: the length of the bucket and the move. */
  function Bucketed(x: Node): (b: Option<(nat, real)>)
    ensures b.Some? ==> b.value.0 > 0
  {
    match x
    case Func(name, args, _, _) =>
      var secs :- BucketSeconds(name, args);
      if |args| == (if CallOf(name) == Some(EveryInterval) then 2 else 1) && args[0] == Col("timestamp") && secs > 0
      then Some((secs, 0.0)) else None
    case Binary(op, l, r) =>
      if !(op.Add? || op.Sub?) || Step(r).None? then None
      else
        var b :- Bucketed(l);
        Some((b.0, if op.Add? then b.1 + Step(r).value else b.1 - Step(r).value))
    case _ => None
  }

  /** Its instant on a row; before the epoch it has no meaning here. */
  function BucketAt(secs: nat, k: real, seconds: real): Option<CVal>
    requires secs > 0
  {
    if seconds < 0.0 then None else Some(CTime(FloorTo(seconds, secs) + k))
  }

  lemma PlainBucketIs(x: Node, crow: CRow, ctx: Ctx, like: Matcher)
    requires x.Func? && Bucketed(x).Some?
    ensures Mean(x, crow, ctx, like) == BucketAt(Bucketed(x).value.0, 0.0, crow.seconds)
    ensures Timed(x) && Faithful(x) && Emit(x, ctx).Success?
  {
    var args := x.args;
    assert Mean(args[0], crow, ctx, like) == Some(CTime(crow.seconds));
    BucketEmitted(x, ctx);
  }

  lemma BucketEmitted(x: Node, ctx: Ctx)
    requires x.Func? && Bucketed(x).Some?
    ensures Emit(x, ctx).Success?
  {
    var fn, args := FnOf(x.name), x.args;
    NameStands(x.name);
    assert Emit(args[0], ctx) == Success(QSeconds);
    if |args| == 2 {
      assert args[1..][1..] == [] && args[2..] == [] && Emit(args[1], ctx).Success?;
      assert EmitArgs(args[1..], ctx).Success?;
    } else {
      assert args[1..] == [];
    }
    assert EmitArgs(args, ctx).Success? && ZonesOk(fn, args);
  }

  lemma BucketStep(x: Node, c: Option<CVal>, crow: CRow, ctx: Ctx, like: Matcher)
    requires x.Binary? && (x.op.Add? || x.op.Sub?) && Step(x.right).Some?
    requires Mean(x.left, crow, ctx, like) == c && (c.Some? ==> c.value.CTime?)
    ensures Mean(x, crow, ctx, like) ==
            if c.None? then None
            else Some(CTime(if x.op.Add? then c.value.t + Step(x.right).value else c.value.t - Step(x.right).value))
  {
    StepIs(x.right, crow, ctx, like);
    if c.Some? && x.op.Add? {
      AddIs(x.left, x.right, c.value.t, Step(x.right).value, crow, ctx, like);
    } else if c.Some? {
      SubIs(x.left, x.right, c.value.t, Step(x.right).value, crow, ctx, like);
    }
  }

  lemma {:induction false} BucketedIs(x: Node, crow: CRow, ctx: Ctx, like: Matcher)
    requires Bucketed(x).Some?
    ensures Mean(x, crow, ctx, like) == BucketAt(Bucketed(x).value.0, Bucketed(x).value.1, crow.seconds)
    ensures Timed(x) && Faithful(x) && Emit(x, ctx).Success?
  {
    if x.Func? {
      PlainBucketIs(x, crow, ctx, like);
    } else {
      BucketedIs(x.left, crow, ctx, like);
      BucketStep(x, Mean(x.left, crow, ctx, like), crow, ctx, like);
      StepIs(x.right, crow, ctx, like);
    }
  }

  lemma BucketHidden(x: Node)
    requires Bucketed(x).Some? && !InferType(x).IsTime()
    ensures x.Binary? && (x.op.Add? || x.op.Sub?)
  {
  }

  /** Some bucket, so moved, starts at the literal's instant. */
  predicate Meets(secs: nat, k: real, n: int)
    requires secs > 0
  {
    Whole(k) && n >= k.Floor && (n - k.Floor) % secs == 0
  }

  lemma MetAt(secs: nat, k: real, n: int) returns (ms: nat)
    requires secs > 0 && Meets(secs, k, n)
    ensures BucketAt(secs, k, ms as real / 1000.0) == Some(CTime(n as real))
  {
    var d := n - k.Floor;
    ms := d * 1000;
    Thousandths(d as real, ms);
    ExactMultiple(d, secs);
  }

  lemma ExactMultiple(d: nat, secs: nat)
    requires secs > 0 && d % secs == 0
    ensures d / secs * secs == d
  {
    assert d == secs * (d / secs) + d % secs;
  }

  lemma MetOnlyWhen(secs: nat, k: real, n: int, seconds: real)
    requires secs > 0 && seconds >= 0.0 && BucketAt(secs, k, seconds) == Some(CTime(n as real))
    ensures Meets(secs, k, n)
  {
    var q := seconds.Floor / secs;
    MultipleOf(q, secs);
    DivBounds(seconds.Floor, secs);
    assert k == (n - q * secs) as real;
  }

  lemma LaterBucket(secs: nat, k: real, n: int) returns (ms: nat)
    requires secs > 0
    ensures BucketAt(secs, k, ms as real / 1000.0).Some? && BucketAt(secs, k, ms as real / 1000.0).value.t > n as real
  {
    var j := Max(0, n - k.Floor + 1);
    ms := secs * j * 1000;
    Thousandths((secs * j) as real, ms);
    MultipleOf(j, secs);
    assert secs * j == j * secs;
    AtLeastItself(j, secs);
  }

  lemma AtLeastItself(j: nat, secs: nat)
    requires secs > 0
    ensures j * secs >= j
  {
  }

  lemma WrongBucket(op: BinOp, secs: nat, k: real, n: int) returns (ms: int)
    requires op.IsCompare() && secs > 0 && (Equates(op) ==> Meets(secs, k, n))
    ensures var c := BucketAt(secs, k, ms as real / 1000.0);
            c.Some? && Holds(op, RealLess(), c.value.t, n as real) != BelowText(op)
  {
    if Equates(op) {
      ms := MetAt(secs, k, n);
    } else {
      ms := LaterBucket(secs, k, n);
    }
  }

  /** A date literal facing a moved bucket: unless the inference sees a DateTime, an ordering is always wrong on some
      row, and an equality is wrong on some row exactly when some bucket can meet the literal. */
  lemma BucketRightKeptIff(op: BinOp, x: Node, text: string, n: int, whole: Sq, ctx: Ctx, like: Matcher)
    requires op.IsCompare() && Bucketed(x).Some? && ctx.dates(text) == Some(n)
    requires Emit(Binary(op, x, Str(text)), ctx) == Success(whole)
    ensures Kept(Binary(op, x, Str(text)), whole, ctx, like) <==>
            InferType(x).IsTime() || (Equates(op) && !Meets(Bucketed(x).value.0, Bucketed(x).value.1, n))
  {
    BucketedIs(x, CRowAt(0), ctx, like);
    if InferType(x).IsTime() {
      FaithfulIsKept(Binary(op, x, Str(text)), whole, ctx, like);
    } else if Equates(op) && !Meets(Bucketed(x).value.0, Bucketed(x).value.1, n) {
      forall row, crow | Stores(row, crow)
        ensures Same(whole, row, Mean(Binary(op, x, Str(text)), crow, ctx, like), like)
      {
        BucketRightOnRow(op, x, text, n, whole, row, crow, ctx, like);
      }
    } else {
      BucketRightWrong(op, x, text, n, whole, ctx, like);
    }
  }

  lemma BucketRightWrong(op: BinOp, x: Node, text: string, n: int, whole: Sq, ctx: Ctx, like: Matcher)
    requires op.IsCompare() && Bucketed(x).Some? && ctx.dates(text) == Some(n) && !InferType(x).IsTime()
    requires Emit(Binary(op, x, Str(text)), ctx) == Success(whole)
    requires Equates(op) ==> Meets(Bucketed(x).value.0, Bucketed(x).value.1, n)
    ensures !Kept(Binary(op, x, Str(text)), whole, ctx, like)
  {
    var ms := WrongBucket(op, Bucketed(x).value.0, Bucketed(x).value.1, n);
    BucketRightWrongAt(op, x, text, n, whole, ms, ctx, like);
    WrongAt(Binary(op, x, Str(text)), whole, ms, ctx, like);
  }

  lemma BucketRightWrongAt(op: BinOp, x: Node, text: string, n: int, whole: Sq, ms: int, ctx: Ctx, like: Matcher)
    requires op.IsCompare() && Bucketed(x).Some? && ctx.dates(text) == Some(n) && !InferType(x).IsTime()
    requires Emit(Binary(op, x, Str(text)), ctx) == Success(whole)
    requires var c := BucketAt(Bucketed(x).value.0, Bucketed(x).value.1, ms as real / 1000.0);
             c.Some? && Holds(op, RealLess(), c.value.t, n as real) != BelowText(op)
    ensures !Same(whole, RowAt(ms), Mean(Binary(op, x, Str(text)), CRowAt(ms), ctx, like), like)
  {
    StoredAt(ms);
    BucketRightOnRow(op, x, text, n, whole, RowAt(ms), CRowAt(ms), ctx, like);
  }

  lemma BucketRightOnRow(op: BinOp, x: Node, text: string, n: int, whole: Sq, row: Row, crow: CRow, ctx: Ctx,
                         like: Matcher)
    requires op.IsCompare() && Bucketed(x).Some? && !InferType(x).IsTime()
    requires ctx.dates(text) == Some(n) && Emit(Binary(op, x, Str(text)), ctx) == Success(whole) && Stores(row, crow)
    ensures var c := BucketAt(Bucketed(x).value.0, Bucketed(x).value.1, crow.seconds);
            Same(whole, row, Mean(Binary(op, x, Str(text)), crow, ctx, like), like) <==>
            (c.Some? ==> Holds(op, RealLess(), c.value.t, n as real) == BelowText(op))
    ensures Equates(op) && !Meets(Bucketed(x).value.0, Bucketed(x).value.1, n) ==>
              Same(whole, row, Mean(Binary(op, x, Str(text)), crow, ctx, like), like)
  {
    BucketedIs(x, crow, ctx, like);
    BucketHidden(x);
    if crow.seconds >= 0.0 {
      LiteralFacingArithmetic(op, x, text, whole, n, row, crow, ctx, like);
      var secs, k := Bucketed(x).value.0, Bucketed(x).value.1;
      if BucketAt(secs, k, crow.seconds) == Some(CTime(n as real)) {
        MetOnlyWhen(secs, k, n, crow.seconds);
      }
    }
  }

  lemma BucketLeftOnRow(op: BinOp, x: Node, text: string, n: int, whole: Sq, row: Row, crow: CRow, ctx: Ctx,
                        like: Matcher)
    requires op.IsCompare() && Bucketed(x).Some? && !InferType(x).IsTime()
    requires ctx.dates(text) == Some(n) && Emit(Binary(op, Str(text), x), ctx) == Success(whole) && Stores(row, crow)
    ensures var c := BucketAt(Bucketed(x).value.0, Bucketed(x).value.1, crow.seconds);
            Same(whole, row, Mean(Binary(op, Str(text), x), crow, ctx, like), like) <==>
            (c.Some? ==> Holds(Flip(op), RealLess(), c.value.t, n as real) == BelowText(Flip(op)))
    ensures Equates(op) && !Meets(Bucketed(x).value.0, Bucketed(x).value.1, n) ==>
              Same(whole, row, Mean(Binary(op, Str(text), x), crow, ctx, like), like)
  {
    BucketedIs(x, crow, ctx, like);
    BucketHidden(x);
    if crow.seconds >= 0.0 {
      LeftFacingArithmetic(op, x, text, whole, n, row, crow, ctx, like);
      var secs, k := Bucketed(x).value.0, Bucketed(x).value.1;
      if BucketAt(secs, k, crow.seconds) == Some(CTime(n as real)) {
        MetOnlyWhen(secs, k, n, crow.seconds);
      }
    }
  }

  /** The same with the literal on the left. */
  lemma BucketLeftKeptIff(op: BinOp, x: Node, text: string, n: int, whole: Sq, ctx: Ctx, like: Matcher)
    requires op.IsCompare() && Bucketed(x).Some? && ctx.dates(text) == Some(n)
    requires Emit(Binary(op, Str(text), x), ctx) == Success(whole)
    ensures Kept(Binary(op, Str(text), x), whole, ctx, like) <==>
            InferType(x).IsTime() || (Equates(op) && !Meets(Bucketed(x).value.0, Bucketed(x).value.1, n))
  {
    BucketedIs(x, CRowAt(0), ctx, like);
    if InferType(x).IsTime() {
      FaithfulIsKept(Binary(op, Str(text), x), whole, ctx, like);
    } else if Equates(op) && !Meets(Bucketed(x).value.0, Bucketed(x).value.1, n) {
      forall row, crow | Stores(row, crow)
        ensures Same(whole, row, Mean(Binary(op, Str(text), x), crow, ctx, like), like)
      {
        BucketLeftOnRow(op, x, text, n, whole, row, crow, ctx, like);
      }
    } else {
      BucketLeftWrong(op, x, text, n, whole, ctx, like);
    }
  }

  lemma BucketLeftWrong(op: BinOp, x: Node, text: string, n: int, whole: Sq, ctx: Ctx, like: Matcher)
    requires op.IsCompare() && Bucketed(x).Some? && ctx.dates(text) == Some(n) && !InferType(x).IsTime()
    requires Emit(Binary(op, Str(text), x), ctx) == Success(whole)
    requires Equates(op) ==> Meets(Bucketed(x).value.0, Bucketed(x).value.1, n)
    ensures !Kept(Binary(op, Str(text), x), whole, ctx, like)
  {
    FlipHolds(op, 0.0, 0.0);
    var ms := WrongBucket(Flip(op), Bucketed(x).value.0, Bucketed(x).value.1, n);
    BucketLeftWrongAt(op, x, text, n, whole, ms, ctx, like);
    WrongAt(Binary(op, Str(text), x), whole, ms, ctx, like);
  }

  lemma BucketLeftWrongAt(op: BinOp, x: Node, text: string, n: int, whole: Sq, ms: int, ctx: Ctx, like: Matcher)
    requires op.IsCompare() && Bucketed(x).Some? && ctx.dates(text) == Some(n) && !InferType(x).IsTime()
    requires Emit(Binary(op, Str(text), x), ctx) == Success(whole)
    requires var c := BucketAt(Bucketed(x).value.0, Bucketed(x).value.1, ms as real / 1000.0);
             c.Some? && Holds(Flip(op), RealLess(), c.value.t, n as real) != BelowText(Flip(op))
    ensures !Same(whole, RowAt(ms), Mean(Binary(op, Str(text), x), CRowAt(ms), ctx, like), like)
  {
    StoredAt(ms);
    BucketLeftOnRow(op, x, text, n, whole, RowAt(ms), CRowAt(ms), ctx, like);
  }

  // ---- An input ----

  /** `timestamp - INTERVAL '1' DAY >= 'literal'`, on the row a day after the literal's instant: true, but SQLite
      answers 0, and 0 on every other row too. */
  lemma LiteralWitness(timestamp: string, text: string, n: int, row: Row, ctx: Ctx, like: Matcher)
    requires timestamp == "timestamp" && ctx.dates(text) == Some(n)
    ensures var x := Binary(Sub, Col(timestamp), Interval(Decimal(86400, 0)));
            var e, ms := Binary(Ge, x, Str(text)), (n + 86400) * 1000;
            && Emit(e, ctx).Success?
            && Mean(e, CRowAt(ms), ctx, like) == Some(CNum(1.0))
            && Eval(Emit(e, ctx).value, row, like) == Some(VInt(0))
  {
    var d := Decimal(86400, 0);
    var x := Binary(Sub, Col(timestamp), Interval(d));
    var ms := (n + 86400) * 1000;
    assert Pow10(0) == 1.0 && DecimalValue(d) == 86400.0;
    assert Moved(x) == Some(-86400.0);
    MovedIs(x, CRowAt(ms), ctx, like);
    MeanOfDateComparison(Ge, x, text, n, CRowAt(ms), ctx, like);
    assert ms as real / 1000.0 == (n + 86400) as real;
    var crow := CRow(row.ms as real / 1000.0, map[]);
    MovedIs(x, crow, ctx, like);
    ArithmeticIgnoresLiteral(Ge, x, text, Emit(x, ctx).value, row, crow, ctx, like);
  }
}

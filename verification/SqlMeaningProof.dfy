/** Compilation preserves meaning, on the fragment where it does. */
module SqlMeaningProof {
  import opened Basics
  import opened SqlNumbers
  import opened SqlTokens
  import opened SqlSyntax
  import opened SqlEmit
  import opened SqlMeaning

  /** A SQLite value standing for a ClickHouse value, as an integer or as a real. */
  predicate Agree(v: Val, c: CVal) {
    match c
    case CNull => v.VNull?
    case CNum(x) => IsNumber(v) && NumberOf(v) == x
    case CTime(t) => IsNumber(v) && NumberOf(v) == t
    case CStr(s) => v == VText(s)
  }

  /** The stored row holds the ClickHouse row, with its timestamp in milliseconds. */
  ghost predicate Stores(row: Row, crow: CRow) {
    && crow.seconds == row.ms as real / 1000.0
    && forall name :: name in crow.cols ==>
         IsColumn(name) && name != "timestamp" && name in row.cols && Agree(row.cols[name], crow.cols[name])
             && !crow.cols[name].CTime?
  }

  /** Whether an expression is a DateTime by its own rules: a DateTime moved by seconds stays one. */
  predicate Timed(e: Node) {
    match e
    case Col(name) => name == "timestamp"
    case Binary(op, l, r) => (op.Add? && Timed(l) != Timed(r)) || (op.Sub? && Timed(l) && !Timed(r))
    case Func(name, args, _, _) =>
      var call := CallOf(name);
      call.Some? && ((call.value.OfInstant() && !call.value.Epoch?) || call.value.Present?
                     || (call.value.Choice? && |args| == 3 && Timed(args[1])))
    case _ => false
  }

  /** A literal is turned into a date exactly when it faces a DateTime. */
  predicate LiteralOk(lit: Node, x: Node) {
    lit.Str? ==> InferType(x).IsTime() == Timed(x)
  }

  /** No date literal faces DateTime arithmetic, which the type inference takes for a number; the branches of every `if`
      agree on being a DateTime; and no minus sign stands before a negative interval, where the text is a comment. */
  predicate Faithful(e: Node)
    decreases e, 0
  {
    match e
    case Neg(x) => Faithful(x) && !NegativeLiteral(x)
    case Not(x) => Faithful(x)
    case Binary(op, l, r) => Faithful(l) && Faithful(r) && (op.IsCompare() ==> LiteralOk(l, r) && LiteralOk(r, l))
    case In(x, list, _) => Faithful(x) && forall i :: 0 <= i < |list| ==> Faithful(list[i]) && LiteralOk(list[i], x)
    case Like(x, p, _) => Faithful(x) && Faithful(p)
    case Between(x, low, high, _) =>
      Faithful(x) && Faithful(low) && Faithful(high) && LiteralOk(low, x) && LiteralOk(high, x)
    case IsNull(x, _) => Faithful(x)
    case Func(name, args, _, _) =>
      && (forall i :: 0 <= i < |args| ==> Faithful(args[i]))
      && (CallOf(name) == Some(Choice) && |args| == 3 ==> Timed(args[1]) == Timed(args[2]))
    case _ => true
  }

  // ---- Values ----

  lemma TruncWhole(x: real)
    requires Whole(x)
    ensures Trunc(x) == x.Floor
  {
  }

  lemma ArithAgrees(op: BinOp, a: Val, b: Val, ca: CVal, cb: CVal)
    requires Agree(a, ca) && Agree(b, cb) && CArith(op, ca, cb).Some? && !op.Div?
    ensures Arith(op, a, b).Some? && Agree(Arith(op, a, b).value, CArith(op, ca, cb).value)
  {
    if op.Mod? && ca.CNum? && cb.CNum? {
      TruncWhole(ca.x);
      TruncWhole(cb.x);
    }
  }

  lemma DivAgrees(a: Val, b: Val, ca: CVal, cb: CVal)
    requires Agree(a, ca) && Agree(b, cb) && CArith(Div, ca, cb).Some?
    ensures var scaled := Arith(Mul, a, VReal(1.0));
            && scaled.Some? && Arith(Div, scaled.value, b).Some?
            && Agree(Arith(Div, scaled.value, b).value, CArith(Div, ca, cb).value)
  {
  }

  lemma TruthAgrees(a: Val, ca: CVal)
    requires Agree(a, ca) && CTruth(ca).Some?
    ensures Truth(a) == CTruth(ca)
  {
  }

  lemma StepsBackAndForth(a: nat, w: nat)
    requires a < 7 && w < 7
    ensures (w - (a + 1) % 7) % 7 == 6 - (a - w) % 7
  {
    if a >= w {
      assert (a - w) % 7 == a - w;
      assert a < 6 ==> (a + 1) % 7 == a + 1;
    } else {
      assert (a - w) % 7 == a - w + 7;
    }
  }

  lemma SixDaysEarlier(day: int)
    ensures Weekday(day - 6) == (Weekday(day) + 1) % 7
  {
  }

  lemma StepsAgree(day: int, w: nat)
    requires w < 7
    ensures day - 6 + (w - Weekday(day - 6)) % 7 == day - (Weekday(day) - w) % 7
  {
    SixDaysEarlier(day);
    StepsBackAndForth(Weekday(day), w);
  }

  /** Midnight of the first day with this weekday that is not before the sixth last. */
  function WeekStart(t: int, w: nat): int {
    var day := t / 86400 - 6;
    (day + (w - Weekday(day)) % 7) * 86400
  }

  lemma WholeDays(day: int)
    ensures day * 86400 / 86400 == day
  {
  }

  /** What the three modifiers of a week do. */
  lemma WeekModifiers(t: int, w: nat)
    ensures Modified(t, [DayStart, AddDays(-6), ToWeekday(w)]) == WeekStart(t, w)
  {
    var day := t / 86400;
    WholeDays(day - 6);
    var ms := [DayStart, AddDays(-6), ToWeekday(w)];
    assert ms[1..] == [AddDays(-6), ToWeekday(w)] && ms[1..][1..] == [ToWeekday(w)] && ms[1..][1..][1..] == [];
    assert Modify(t, DayStart) == day * 86400;
    assert Modify(day * 86400, AddDays(-6)) == (day - 6) * 86400;
    assert Modify((day - 6) * 86400, ToWeekday(w)) == WeekStart(t, w);
    assert Modified((day - 6) * 86400, [ToWeekday(w)]) == WeekStart(t, w);
    assert Modified(day * 86400, ms[1..]) == WeekStart(t, w);
  }

  /** strftime's three steps land on the latest matching day not after `t`. */
  lemma WeekAgrees(t: real, w: nat)
    requires t >= 0.0 && w < 7
    ensures WeekStart(Trunc(t), w) as real == PreviousWeekday(t, w)
  {
    var day := t.Floor / 86400;
    StepsAgree(day, w);
    var ahead, back := (w - Weekday(day - 6)) % 7, (Weekday(day) - w) % 7;
    assert WeekStart(t.Floor, w) == (day - 6 + ahead) * 86400;
    assert PreviousWeekday(t, w) == ((day - back) * 86400) as real;
  }

  lemma LatestDay(day: int, w: nat)
    requires w < 7
    ensures var first := day - (Weekday(day) - w) % 7; Weekday(first) == w && day - 6 <= first <= day
  {
  }

  lemma OncePerWeek(first: int, d: int)
    requires Weekday(d) == Weekday(first) && d < first + 7
    ensures d <= first
  {
  }

  /** The day an instant falls on is the last that has begun. */
  lemma DayOf(t: real, d: int)
    ensures var day := t.Floor / 86400;
            (day * 86400) as real <= t < (day * 86400 + 86400) as real && ((d * 86400) as real <= t ==> d <= day)
  {
  }

  /** What "latest matching day" means. */
  lemma PreviousWeekdayIsLatest(t: real, w: nat)
    requires w < 7
    ensures var r := PreviousWeekday(t, w).Floor;
            && r % 86400 == 0 && Weekday(r / 86400) == w && r as real <= t < (r + 7 * 86400) as real
            && forall d: int :: Weekday(d) == w && (d * 86400) as real <= t ==> d * 86400 <= r
  {
    var day := t.Floor / 86400;
    var first := day - (Weekday(day) - w) % 7;
    LatestDay(day, w);
    DayOf(t, day);
    MidnightOf(t, w, first);
    forall d: int | Weekday(d) == w && (d * 86400) as real <= t
      ensures d * 86400 <= first * 86400
    {
      DayOf(t, d);
      OncePerWeek(first, d);
    }
  }

  lemma MidnightOf(t: real, w: nat, first: int)
    requires w < 7 && first == t.Floor / 86400 - (Weekday(t.Floor / 86400) - w) % 7
    ensures PreviousWeekday(t, w).Floor == first * 86400
    ensures (first * 86400) % 86400 == 0 && (first * 86400) / 86400 == first
  {
  }

  // ---- Types ----

  lemma TimedInfix(op: BinOp, l: Node, r: Node, a: CVal, b: CVal, ctx: Ctx)
    requires if Timed(l) then a.CTime? || a.CNull? else !a.CTime?
    requires if Timed(r) then b.CTime? || b.CNull? else !b.CTime?
    requires MeanBin(op, l, r, a, b, ctx).Some?
    ensures var c := MeanBin(op, l, r, a, b, ctx).value;
            if Timed(Binary(op, l, r)) then c.CTime? || c.CNull? else !c.CTime?
  {
  }

  /** The type rules of `Timed` are sound for the values. */
  lemma {:induction false} TimedSound(e: Node, row: Row, crow: CRow, ctx: Ctx, like: Matcher)
    requires Stores(row, crow) && Faithful(e) && Mean(e, crow, ctx, like).Some?
    ensures var c := Mean(e, crow, ctx, like).value;
            if Timed(e) then c.CTime? || c.CNull? else !c.CTime?
    decreases e
  {
    match e
    case Binary(op, l, r) =>
      TimedSound(l, row, crow, ctx, like);
      TimedSound(r, row, crow, ctx, like);
      TimedInfix(op, l, r, Mean(l, crow, ctx, like).value, Mean(r, crow, ctx, like).value, ctx);
    case Func(name, args, _, _) =>
      if CallOf(name) == Some(Choice) && |args| == 3 {
        var t := CTruth(Mean(args[0], crow, ctx, like).value).value;
        TimedSound(if t.True3? then args[1] else args[2], row, crow, ctx, like);
      }
    case _ =>
  }

  // ---- Preservation ----

  /** The emitted expression `q` has over the stored row the value `e` has over the ClickHouse row. */
  ghost predicate Same(q: Sq, row: Row, c: Option<CVal>, like: Matcher) {
    c.Some? ==> Eval(q, row, like).Some? && Agree(Eval(q, row, like).value, c.value)
  }

  lemma CompareLoosely(op: BinOp, a: Val, b: Val, ca: CVal, cb: CVal)
    requires CCompare(op, ca, cb).Some?
    requires (Agree(a, ca) && Agree(b, cb)) || (Agree(b, cb) && cb.CNull?) || (Agree(a, ca) && ca.CNull?)
    ensures Compare(if op.LtGt? then Ne else op, a, b) == CCompare(op, ca, cb).value
  {
  }

  /** Main result: on the fragment where the ClickHouse meaning is defined, SQLite computes it. */
  lemma {:induction false} Preserved(e: Node, q: Sq, row: Row, crow: CRow, ctx: Ctx, like: Matcher)
    requires Stores(row, crow) && Faithful(e) && Emit(e, ctx) == Success(q)
    ensures Same(q, row, Mean(e, crow, ctx, like), like)
    decreases e, 2
  {
    if Mean(e, crow, ctx, like).Some? {
      match e
      case Binary(op, _, _) =>
        if op.IsCompare() {
          PreservedCompare(e, q, row, crow, ctx, like);
        } else {
          PreservedInfix(e, q, row, crow, ctx, like);
        }
      case Neg(_) => PreservedPrefix(e, q, row, crow, ctx, like);
      case Not(_) => PreservedPrefix(e, q, row, crow, ctx, like);
      case In(_, _, _) => PreservedIn(e, q, row, crow, ctx, like);
      case Like(_, _, _) => PreservedLike(e, q, row, crow, ctx, like);
      case Between(_, _, _, _) => PreservedBetween(e, q, row, crow, ctx, like);
      case IsNull(_, _) => PreservedPrefix(e, q, row, crow, ctx, like);
      case Func(_, _, _, _) => PreservedFunc(e, q, row, crow, ctx, like);
      case _ =>
    }
  }

  lemma {:induction false} PreservedPrefix(e: Node, q: Sq, row: Row, crow: CRow, ctx: Ctx, like: Matcher)
    requires (e.Neg? || e.Not? || e.IsNull?) && Stores(row, crow) && Faithful(e) && Emit(e, ctx) == Success(q)
    requires Mean(e, crow, ctx, like).Some?
    ensures Same(q, row, Mean(e, crow, ctx, like), like)
    decreases e, 1
  {
    var x, y := if e.IsNull? then e.expr else e.operand, if e.IsNull? then q.expr else q.operand;
    Preserved(x, y, row, crow, ctx, like);
    if e.Not? {
      TruthAgrees(Eval(y, row, like).value, Mean(x, crow, ctx, like).value);
    }
  }

  lemma {:induction false} PreservedIn(e: Node, q: Sq, row: Row, crow: CRow, ctx: Ctx, like: Matcher)
    requires e.In? && Stores(row, crow) && Faithful(e) && Emit(e, ctx) == Success(q)
    requires Mean(e, crow, ctx, like).Some?
    ensures Same(q, row, Mean(e, crow, ctx, like), like)
    decreases e, 1
  {
    var In(x, list, _) := e;
    var v := Mean(x, crow, ctx, like).value;
    Preserved(x, q.expr, row, crow, ctx, like);
    var w := Eval(q.expr, row, like).value;
    PreservedList(x, v, w, list, q.list, row, crow, ctx, like);
    InCloses(e, q, v, w, row, crow, ctx, like);
  }

  lemma InCloses(e: Node, q: Sq, v: CVal, w: Val, row: Row, crow: CRow, ctx: Ctx, like: Matcher)
    requires e.In? && q.QIn? && q.negate == e.negate
    requires Mean(e.expr, crow, ctx, like) == Some(v) && Eval(q.expr, row, like) == Some(w)
    requires EvalIn(w, q.list, row, like) == MeanIn(v, e.list, crow, ctx, like)
    ensures Same(q, row, Mean(e, crow, ctx, like), like)
  {
  }

  lemma {:induction false} PreservedLike(e: Node, q: Sq, row: Row, crow: CRow, ctx: Ctx, like: Matcher)
    requires e.Like? && Stores(row, crow) && Faithful(e) && Emit(e, ctx) == Success(q)
    requires Mean(e, crow, ctx, like).Some?
    ensures Same(q, row, Mean(e, crow, ctx, like), like)
    decreases e, 1
  {
    Preserved(e.expr, q.expr, row, crow, ctx, like);
    Preserved(e.pattern, q.pattern, row, crow, ctx, like);
  }

  lemma {:induction false} PreservedInfix(e: Node, q: Sq, row: Row, crow: CRow, ctx: Ctx, like: Matcher)
    requires e.Binary? && !e.op.IsCompare() && Stores(row, crow) && Faithful(e) && Emit(e, ctx) == Success(q)
    requires Mean(e, crow, ctx, like).Some?
    ensures Same(q, row, Mean(e, crow, ctx, like), like)
    decreases e, 1
  {
    var Binary(op, l, r) := e;
    Preserved(l, q.left, row, crow, ctx, like);
    Preserved(r, q.right, row, crow, ctx, like);
    var a, b := Eval(q.left, row, like).value, Eval(q.right, row, like).value;
    var ca, cb := Mean(l, crow, ctx, like).value, Mean(r, crow, ctx, like).value;
    if op.And? || op.Or? {
      TruthAgrees(a, ca);
      TruthAgrees(b, cb);
    } else if op.Div? {
      DivAgrees(a, b, ca, cb);
    } else {
      ArithAgrees(op, a, b, ca, cb);
    }
  }

  /** One side of a comparison; `v` is the value of the other. */
  lemma {:induction false} PreservedOperand(e: Node, x: Node, v: CVal, q: Sq, row: Row, crow: CRow, ctx: Ctx,
                                            like: Matcher)
    requires Stores(row, crow) && Faithful(e) && Faithful(x) && LiteralOk(e, x) && EmitOperand(e, x, ctx) == Success(q)
    requires Mean(x, crow, ctx, like) == Some(v) && Mean(e, crow, ctx, like).Some?
    requires AsDate(e, Mean(e, crow, ctx, like).value, v, ctx).Some?
    ensures Eval(q, row, like).Some?
    ensures Agree(Eval(q, row, like).value, AsDate(e, Mean(e, crow, ctx, like).value, v, ctx).value)
              || (e.Str? && v.CNull?)
    decreases e, 3
  {
    TimedSound(x, row, crow, ctx, like);
    if e.Str? && InferType(x).IsTime() {
      assert q == QNum(Decimal(ctx.dates(e.text).value, 0));
    } else {
      Preserved(e, q, row, crow, ctx, like);
    }
  }

  lemma {:induction false} PreservedCompare(e: Node, q: Sq, row: Row, crow: CRow, ctx: Ctx, like: Matcher)
    requires e.Binary? && e.op.IsCompare() && Stores(row, crow) && Faithful(e) && Emit(e, ctx) == Success(q)
    requires Mean(e, crow, ctx, like).Some?
    ensures Same(q, row, Mean(e, crow, ctx, like), like)
    decreases e, 1
  {
    var Binary(op, l, r) := e;
    var ca, cb := Mean(l, crow, ctx, like).value, Mean(r, crow, ctx, like).value;
    PreservedOperand(l, r, cb, q.left, row, crow, ctx, like);
    PreservedOperand(r, l, ca, q.right, row, crow, ctx, like);
    var a', b' := AsDate(l, ca, cb, ctx).value, AsDate(r, cb, ca, ctx).value;
    CompareLoosely(op, Eval(q.left, row, like).value, Eval(q.right, row, like).value, a', b');
  }

  /** The answer of a comparison with a bound. */
  function Against(op: BinOp, e: Node, v: CVal, crow: CRow, ctx: Ctx, like: Matcher): Option<Tri> {
    var b :- Mean(e, crow, ctx, like);
    var b' :- AsDate(e, b, v, ctx);
    CCompare(op, v, b')
  }

  /** What `x`, of value `v`, is compared with: an item of a list or a bound. */
  lemma {:induction false} PreservedAgainst(op: BinOp, e: Node, x: Node, v: CVal, w: Val, q: Sq,
                                            row: Row, crow: CRow, ctx: Ctx, like: Matcher)
    requires Stores(row, crow) && Faithful(e) && Faithful(x) && LiteralOk(e, x) && EmitOperand(e, x, ctx) == Success(q)
    requires Mean(x, crow, ctx, like) == Some(v) && Agree(w, v) && !op.LtGt?
    requires Against(op, e, v, crow, ctx, like).Some?
    ensures Eval(q, row, like).Some?
    ensures Against(op, e, v, crow, ctx, like) == Some(Compare(op, w, Eval(q, row, like).value))
    decreases e, 4
  {
    PreservedOperand(e, x, v, q, row, crow, ctx, like);
    var b := AsDate(e, Mean(e, crow, ctx, like).value, v, ctx).value;
    CompareLoosely(op, w, Eval(q, row, like).value, v, b);
  }

  lemma {:induction false} PreservedList(x: Node, v: CVal, w: Val, list: seq<Node>, qs: seq<Sq>,
                                         row: Row, crow: CRow, ctx: Ctx, like: Matcher)
    requires Stores(row, crow) && Faithful(x) && Mean(x, crow, ctx, like) == Some(v) && Agree(w, v)
    requires forall i :: 0 <= i < |list| ==> Faithful(list[i]) && LiteralOk(list[i], x)
    requires EmitList(list, x, ctx) == Success(qs) && MeanIn(v, list, crow, ctx, like).Some?
    ensures EvalIn(w, qs, row, like) == MeanIn(v, list, crow, ctx, like)
    decreases list, 5
  {
    if list != [] {
      PreservedAgainst(Eq, list[0], x, v, w, qs[0], row, crow, ctx, like);
      assert EmitList(list[1..], x, ctx) == Success(qs[1..]);
      PreservedList(x, v, w, list[1..], qs[1..], row, crow, ctx, like);
    }
  }

  lemma {:induction false} PreservedBetween(e: Node, q: Sq, row: Row, crow: CRow, ctx: Ctx, like: Matcher)
    requires e.Between? && Stores(row, crow) && Faithful(e) && Emit(e, ctx) == Success(q)
    requires Mean(e, crow, ctx, like).Some?
    ensures Same(q, row, Mean(e, crow, ctx, like), like)
    decreases e, 1
  {
    var Between(x, low, high, _) := e;
    var v := Mean(x, crow, ctx, like).value;
    Preserved(x, q.expr, row, crow, ctx, like);
    var w := Eval(q.expr, row, like).value;
    PreservedAgainst(Ge, low, x, v, w, q.low, row, crow, ctx, like);
    PreservedAgainst(Le, high, x, v, w, q.high, row, crow, ctx, like);
    BetweenCloses(e, q, v, w, row, crow, ctx, like);
  }

  lemma BetweenCloses(e: Node, q: Sq, v: CVal, w: Val, row: Row, crow: CRow, ctx: Ctx, like: Matcher)
    requires e.Between? && q.QBetween? && q.negate == e.negate
    requires Mean(e.expr, crow, ctx, like) == Some(v) && Eval(q.expr, row, like) == Some(w)
    requires Eval(q.low, row, like).Some? && Eval(q.high, row, like).Some?
    requires Against(Ge, e.low, v, crow, ctx, like) == Some(Compare(Ge, w, Eval(q.low, row, like).value))
    requires Against(Le, e.high, v, crow, ctx, like) == Some(Compare(Le, w, Eval(q.high, row, like).value))
    ensures Same(q, row, Mean(e, crow, ctx, like), like)
  {
  }

  lemma {:induction false} PreservedFunc(e: Node, q: Sq, row: Row, crow: CRow, ctx: Ctx, like: Matcher)
    requires e.Func? && Stores(row, crow) && Faithful(e) && Emit(e, ctx) == Success(q)
    requires Mean(e, crow, ctx, like).Some?
    ensures Same(q, row, Mean(e, crow, ctx, like), like)
    decreases e, 1
  {
    var fn, call, a := FnOf(e.name), CallOf(e.name).value, EmitArgs(e.args, ctx).value;
    NameStands(e.name);
    if fn.Now? {
    } else {
      ArgsEmitted(e.args, a, ctx, 0);
      Preserved(e.args[0], a[0], row, crow, ctx, like);
      if TakesTime(fn) {
        PreservedTimeFn(fn, call, e.name, e.args, a[0], q, row, crow, ctx, like);
      } else if fn.If? {
        PreservedIf(e.args, a, row, crow, ctx, like);
      } else if fn.IntDiv? {
        ArgsEmitted(e.args, a, ctx, 1);
        Preserved(e.args[1], a[1], row, crow, ctx, like);
        IntDivAgrees(a, row, Mean(e.args[0], crow, ctx, like).value, Mean(e.args[1], crow, ctx, like).value, like);
      } else {
        NumericAgrees(fn, call, e.name, e.args, a, q, row, Mean(e.args[0], crow, ctx, like).value, ctx, like);
      }
    }
  }

  /** The template of a function and its meaning belong together. */
  predicate Stands(fn: Fn, call: Option<Call>) {
    match call
    case None => fn.OtherFn?
    case Some(Truncated(_, _)) => fn.ToInt?
    case Some(Widened) => fn.ToFloat?
    case Some(Quotient) => fn.IntDiv?
    case Some(Absolute) => fn.Abs?
    case Some(RoundedDown) => fn.Floor?
    case Some(Choice) => fn.If?
    case Some(Present) => fn.Now?
    case Some(ToInstant) => fn.ToDateTime?
    case Some(Epoch) => fn.ToUnix?
    case Some(Every(secs)) => secs > 0 && (fn == StartOf(secs) || (secs == 86400 && fn.ToDate?))
    case Some(EveryInterval) => fn.StartOfInterval?
    case Some(EveryMonday) => fn.ToMonday?
    case Some(EveryWeek) => fn.StartOfWeek?
  }

  /** For every name; and the emitter accepts the numbers of arguments that the function takes. */
  lemma NameStands(name: string)
    ensures Stands(FnOf(name), CallOf(name))
    ensures var call := CallOf(name);
            call.Some? ==> (call.value.OfInstant() <==> TakesTime(FnOf(name)))
                           && forall n :: call.value.Counts(n) <==> Arity(FnOf(name), n)
  {
  }

  lemma {:induction false} PreservedIf(args: seq<Node>, a: seq<Sq>, row: Row, crow: CRow, ctx: Ctx, like: Matcher)
    requires Stores(row, crow) && EmitArgs(args, ctx) == Success(a) && |args| == 3
    requires forall i :: 0 <= i < |args| ==> Faithful(args[i])
    requires Same(a[0], row, Mean(args[0], crow, ctx, like), like) && Mean(args[0], crow, ctx, like).Some?
    requires CTruth(Mean(args[0], crow, ctx, like).value).Some?
    ensures var t := CTruth(Mean(args[0], crow, ctx, like).value).value;
            Same(QCase(a[0], a[1], a[2]), row, Mean(if t.True3? then args[1] else args[2], crow, ctx, like), like)
    decreases args, 3
  {
    TruthAgrees(Eval(a[0], row, like).value, Mean(args[0], crow, ctx, like).value);
    var k := if CTruth(Mean(args[0], crow, ctx, like).value).value.True3? then 1 else 2;
    ArgsEmitted(args, a, ctx, k);
    Preserved(args[k], a[k], row, crow, ctx, like);
  }

  lemma IntDivAgrees(a: seq<Sq>, row: Row, ca: CVal, cb: CVal, like: Matcher)
    requires |a| == 2 && Same(a[0], row, Some(ca), like) && Same(a[1], row, Some(cb), like) && MeanIntDiv(ca, cb).Some?
    ensures Same(QBin(Div, QCast(a[0], AsInteger), QCast(a[1], AsInteger)), row, MeanIntDiv(ca, cb), like)
  {
    CastAgrees(a[0], row, ca, like);
    CastAgrees(a[1], row, cb, like);
    if IsNumeric(ca) && IsNumeric(cb) {
      TruncWhole(Amount(ca));
      TruncWhole(Amount(cb));
    }
  }

  lemma CastAgrees(x: Sq, row: Row, c: CVal, like: Matcher)
    requires Same(x, row, Some(c), like) && !c.CStr?
    ensures Eval(QCast(x, AsInteger), row, like) == Some(if c.CNull? then VNull else VInt(Trunc(Amount(c))))
  {
    var v := Eval(x, row, like).value;
    if v.VInt? {
      TruncWhole(v.n as real);
    }
  }

  lemma NumericAgrees(fn: Fn, call: Call, name: string, args: seq<Node>, a: seq<Sq>, q: Sq, row: Row, c: CVal,
                      ctx: Ctx, like: Matcher)
    requires |args| == |a| > 0 && Arity(fn, |args|) && !TakesTime(fn) && !fn.If? && !fn.IntDiv? && !fn.Now?
    requires Stands(fn, Some(call)) && EmitFn(fn, name, args, a, ctx) == Success(q)
    requires Same(a[0], row, Some(c), like) && MeanNumeric(call, c).Some?
    ensures Same(q, row, MeanNumeric(call, c), like)
  {
    if fn.ToInt? || fn.Floor? {
      CastAgrees(a[0], row, c, like);
      if IsNumeric(c) && Whole(Amount(c)) {
        TruncWhole(Amount(c));
      }
    }
  }

  lemma {:induction false} PreservedTimeFn(fn: Fn, call: Call, name: string, args: seq<Node>, a0: Sq, q: Sq,
                                           row: Row, crow: CRow, ctx: Ctx, like: Matcher)
    requires |args| > 0 && Arity(fn, |args|) && TakesTime(fn) && Stands(fn, Some(call)) && call.Counts(|args|)
    requires Same(a0, row, Mean(args[0], crow, ctx, like), like)
    requires var x := if args[0].Str? then ParseDate(args[0].text, ctx) else Success(a0);
             x.Success? && EmitTimeFn(fn, name, args, x.value) == Success(q)
    requires MeanFn(call, args, crow, ctx, like).Some?
    ensures Same(q, row, MeanFn(call, args, crow, ctx, like), like)
  {
    var v := Mean(args[0], crow, ctx, like).value;
    if args[0].Str? {
      var n := ctx.dates(args[0].text).value;
      TimeFnAgrees(fn, call, name, args, QNum(Decimal(n, 0)), q, row, CTime(n as real), like);
    } else {
      TimeFnAgrees(fn, call, name, args, a0, q, row, v, like);
    }
  }

  lemma TimeFnAgrees(fn: Fn, call: Call, name: string, args: seq<Node>, x: Sq, q: Sq, row: Row, c: CVal, like: Matcher)
    requires |args| > 0 && Arity(fn, |args|) && TakesTime(fn) && Stands(fn, Some(call)) && call.Counts(|args|)
    requires EmitTimeFn(fn, name, args, x) == Success(q)
    requires Same(x, row, Some(c), like) && MeanTime(call, args, c).Some?
    ensures Same(q, row, MeanTime(call, args, c), like)
  {
    if call.EveryMonday? || call.EveryWeek? {
      WeekFnAgrees(fn, call, name, args, x, q, row, c, like);
    } else if !call.ToInstant? && !call.Epoch? {
      BucketFnAgrees(fn, call, name, args, x, q, row, c, like);
    } else {
      InstantFnAgrees(fn, call, name, args, x, q, row, c, like);
    }
  }

  lemma BucketFnAgrees(fn: Fn, call: Call, name: string, args: seq<Node>, x: Sq, q: Sq, row: Row, c: CVal,
                       like: Matcher)
    requires |args| > 0 && Arity(fn, |args|) && TakesTime(fn) && Stands(fn, Some(call)) && call.Counts(|args|)
    requires (call.Every? || call.EveryInterval?) && EmitTimeFn(fn, name, args, x) == Success(q)
    requires Same(x, row, Some(c), like) && MeanTime(call, args, c).Some?
    ensures Same(q, row, MeanTime(call, args, c), like)
  {
    var secs := if call.Every? then Decimal(call.seconds, 0) else args[1].seconds;
    assert q == Bucket(x, secs);
    BucketEval(x, secs, row, c, like);
  }

  lemma InstantFnAgrees(fn: Fn, call: Call, name: string, args: seq<Node>, x: Sq, q: Sq, row: Row, c: CVal,
                        like: Matcher)
    requires |args| > 0 && Arity(fn, |args|) && TakesTime(fn) && Stands(fn, Some(call)) && call.Counts(|args|)
    requires (call.ToInstant? || call.Epoch?) && EmitTimeFn(fn, name, args, x) == Success(q)
    requires Same(x, row, Some(c), like) && MeanTime(call, args, c).Some?
    ensures Same(q, row, MeanTime(call, args, c), like)
  {
    if !c.CStr? {
      CastAgrees(x, row, c, like);
    }
  }

  lemma WeekFnAgrees(fn: Fn, call: Call, name: string, args: seq<Node>, x: Sq, q: Sq, row: Row, c: CVal, like: Matcher)
    requires |args| > 0 && Arity(fn, |args|) && TakesTime(fn) && Stands(fn, Some(call)) && call.Counts(|args|)
    requires (call.EveryMonday? || call.EveryWeek?) && EmitTimeFn(fn, name, args, x) == Success(q)
    requires Same(x, row, Some(c), like) && MeanTime(call, args, c).Some?
    ensures Same(q, row, MeanTime(call, args, c), like)
  {
    var w := if call.EveryMonday? then 1 else WeekMode(args).value % 2;
    assert q == Week(x, w);
    assert call.EveryWeek? && FirstDay(args).Some? ==> FirstDay(args) == Some(w);
    WeekEval(x, w, row, c, like);
  }

  lemma WeekEval(x: Sq, w: nat, row: Row, c: CVal, like: Matcher)
    requires w < 7 && Same(x, row, Some(c), like) && (c.CNull? || (IsNumeric(c) && Amount(c) >= 0.0))
    ensures Same(Week(x, w), row, Some(if c.CNull? then CNull else CTime(PreviousWeekday(Amount(c), w))), like)
  {
    if IsNumeric(c) {
      CastAgrees(x, row, c, like);
      WeekModifiers(Trunc(Amount(c)), w);
      WeekAgrees(Amount(c), w);
    }
  }

  lemma BucketEval(x: Sq, secs: Decimal, row: Row, c: CVal, like: Matcher)
    requires Same(x, row, Some(c), like) && (c.CNull? || (IsNumeric(c) && Amount(c) >= 0.0))
    requires IsNumeric(c) ==> secs.scale == 0 && secs.mantissa > 0
    ensures Same(Bucket(x, secs), row, Some(if c.CNull? then CNull else CTime(FloorTo(Amount(c), secs.mantissa))), like)
  {
    CastAgrees(x, row, c, like);
    var i := Eval(QCast(x, AsInteger), row, like).value;
    var n := Eval(QNum(secs), row, like).value;
    if IsNumeric(c) {
      var t, s := Amount(c).Floor, secs.mantissa;
      assert Arith(Div, i, n) == Some(VInt(t / s));
      assert Arith(Mul, VInt(t / s), n) == Some(VInt(t / s * s));
    } else {
      assert Arith(Div, i, n) == Some(VNull) && Arith(Mul, VNull, n) == Some(VNull);
    }
    assert Eval(QBin(Div, QCast(x, AsInteger), QNum(secs)), row, like) == Arith(Div, i, n);
  }
}

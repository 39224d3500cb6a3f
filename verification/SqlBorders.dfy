/** The exact borders of the date functions: when truncation towards zero agrees with the floor. */
module SqlBorders {
  import opened Basics
  import opened SqlNumbers
  import opened SqlTokens
  import opened SqlSyntax
  import opened SqlEmit
  import opened SqlMeaning
  import opened SqlMeaningProof

  /** CAST(x AS INTEGER) is the floor exactly on non-negative and on whole numbers. */
  lemma FloorExactlyWhen(x: real)
    ensures Trunc(x) == x.Floor <==> FloorIsExact(x)
  {
  }

  /** What the emitted bucket expression computes for any epoch. */
  function EmittedBucket(t: real, secs: nat): int
    requires secs > 0
  {
    TruncDiv(Trunc(t), secs) * secs
  }

  predicate IsBucketStart(r: int, t: real, secs: nat)
    requires secs > 0
  {
    r % secs == 0 && r as real <= t < (r + secs) as real
  }

  lemma SmallMultiple(s: int, k: int)
    requires s > 0 && -s < s * k < s
    ensures k == 0
  {
  }

  lemma MultipleOf(q: int, secs: nat)
    requires secs > 0
    ensures q * secs % secs == 0 && (q * secs) / secs == q
  {
    var r := q * secs;
    assert r == secs * (r / secs) + r % secs;
    assert secs * (q - r / secs) == r % secs;
    SmallMultiple(secs, q - r / secs);
  }

  lemma DivBounds(n: nat, secs: nat)
    requires secs > 0
    ensures n / secs * secs <= n < n / secs * secs + secs
  {
    assert n == secs * (n / secs) + n % secs;
  }

  /** Truncation of a negative whole epoch rounds up. */
  lemma NegativeBucket(n: int, secs: nat)
    requires secs > 0 && n <= 0
    ensures var r := TruncDiv(n, secs) * secs; n <= r && r % secs == 0 && (r == n <==> n % secs == 0)
  {
    var m := -n;
    DivBounds(m, secs);
    NegatedMultiple(n, secs);
    MultipleOf(TruncDiv(n, secs), secs);
    if n % secs == 0 {
      assert m == secs * (m / secs) + m % secs;
    }
    assert TruncDiv(n, secs) * secs == -(m / secs * secs) by {
      NegatedProduct(m / secs, secs);
    }
  }

  lemma NegatedProduct(a: int, b: int)
    ensures -a * b == -(a * b)
  {
  }

  /** The bucket starts at the greatest multiple not after `t` exactly for non-negative epochs and exact multiples. */
  lemma BucketExactlyWhen(t: real, secs: nat)
    requires secs > 0
    ensures IsBucketStart(EmittedBucket(t, secs), t, secs) <==> t >= 0.0 || (Whole(t) && t.Floor % secs == 0)
  {
    var n := Trunc(t);
    if t >= 0.0 {
      DivBounds(n, secs);
      MultipleOf(n / secs, secs);
    } else {
      TruncNegative(t);
      NegativeBucket(n, secs);
    }
  }

  lemma TruncNegative(t: real)
    requires t < 0.0
    ensures Trunc(t) <= 0 && t <= Trunc(t) as real && (t == Trunc(t) as real <==> Whole(t))
    ensures Whole(t) ==> Trunc(t) == t.Floor
  {
    if Whole(t) {
      TruncWhole(t);
    } else {
      TruncAbove(t);
    }
  }

  lemma NegatedMultiple(n: int, secs: nat)
    requires secs > 0
    ensures n % secs == 0 <==> (-n) % secs == 0
  {
    if n % secs == 0 {
      NegatedProduct(n / secs, secs);
      MultipleOf(-(n / secs), secs);
    }
    if (-n) % secs == 0 {
      NegatedProduct((-n) / secs, secs);
      MultipleOf(-((-n) / secs), secs);
    }
  }

  // ---- Weeks ----

  /** Midnight of the latest day not after the whole second `n` that falls on weekday `w`. */
  function WeekOf(n: int, w: nat): int {
    (n / 86400 - (Weekday(n / 86400) - w) % 7) * 86400
  }

  lemma WeekStartIs(n: int, w: nat)
    requires w < 7
    ensures WeekStart(n, w) == WeekOf(n, w)
  {
    StepsAgree(n / 86400, w);
  }

  /** A week ends one second before its next start. */
  lemma WeekChanges(n: int, w: nat)
    requires w < 7
    ensures WeekOf(n, w) == WeekOf(n - 1, w) <==> n % 86400 != 0 || Weekday(n / 86400) != w
  {
    var day := n / 86400;
    if n % 86400 != 0 {
      assert (n - 1) / 86400 == day;
    } else {
      assert (n - 1) / 86400 == day - 1;
      OneDayEarlier(day, w);
    }
  }

  lemma OneDayEarlier(day: int, w: nat)
    requires w < 7
    ensures (Weekday(day) - w) % 7 == if Weekday(day) == w then 0 else (Weekday(day - 1) - w) % 7 + 1
    ensures 0 <= (Weekday(day - 1) - w) % 7
  {
    var a, b := Weekday(day), Weekday(day - 1);
    assert b == if a == 0 then 6 else a - 1;
  }

  /** The emitted week starts on the latest matching day not after `t` except for fractional negative epochs in the last
      second of a week. */
  lemma WeekExactlyWhen(t: real, w: nat)
    requires w < 7
    ensures WeekStart(Trunc(t), w) as real == PreviousWeekday(t, w) <==>
            t >= 0.0 || Whole(t) || Trunc(t) % 86400 != 0 || Weekday(Trunc(t) / 86400) != w
  {
    WeekStartIs(Trunc(t), w);
    assert PreviousWeekday(t, w) == WeekOf(t.Floor, w) as real;
    if Whole(t) {
      TruncWhole(t);
    } else if t < 0.0 {
      TruncAbove(t);
      WeekChanges(Trunc(t), w);
    }
  }

  lemma TruncAbove(t: real)
    requires t < 0.0 && !Whole(t)
    ensures Trunc(t) == t.Floor + 1
  {
    var n := t.Floor;
    assert n as real < t < (n + 1) as real;
    assert (-(n + 1)) as real < -t < (-n) as real;
  }

  // ---- The borders, over the emitted expressions ----

  lemma CastIs(x: Sq, t: real, row: Row, like: Matcher)
    requires Evaluates(x, t, row, like)
    ensures Eval(QCast(x, AsInteger), row, like) == Some(VInt(Trunc(t)))
  {
    if Eval(x, row, like).value.VInt? {
      TruncWhole(t);
    }
  }

  /** `x` has the number `t` as its SQLite value. */
  predicate Evaluates(x: Sq, t: real, row: Row, like: Matcher) {
    Eval(x, row, like).Some? && IsNumber(Eval(x, row, like).value) && NumberOf(Eval(x, row, like).value) == t
  }

  lemma BucketIs(x: Sq, secs: nat, t: real, row: Row, like: Matcher)
    requires Evaluates(x, t, row, like) && secs > 0
    ensures Eval(Bucket(x, Decimal(secs, 0)), row, like) == Some(VInt(EmittedBucket(t, secs)))
  {
    CastIs(x, t, row, like);
    var n := QNum(Decimal(secs, 0));
    assert Eval(n, row, like) == Some(VInt(secs));
    assert Eval(QBin(Div, QCast(x, AsInteger), n), row, like) == Some(VInt(TruncDiv(Trunc(t), secs)));
  }

  lemma WeekIs(x: Sq, w: nat, t: real, row: Row, like: Matcher)
    requires Evaluates(x, t, row, like)
    ensures Eval(Week(x, w), row, like) == Some(VInt(WeekStart(Trunc(t), w)))
  {
    CastIs(x, t, row, like);
    WeekModifiers(Trunc(t), w);
  }

  /** floor(x) is emitted as a cast, which is the floor exactly when the value is not negative or is whole. */
  lemma FloorBorder(name: string, x: Node, qx: Sq, t: real, row: Row, ctx: Ctx, like: Matcher)
    requires CallOf(name) == Some(RoundedDown) && Emit(x, ctx) == Success(qx) && Evaluates(qx, t, row, like)
    ensures var q := Emit(Func(name, [x], NoParams, false), ctx);
            q.Success? && (Eval(q.value, row, like) == Some(VInt(t.Floor)) <==> t >= 0.0 || Whole(t))
  {
    NameStands(name);
    CastIs(qx, t, row, like);
    FloorExactlyWhen(t);
    OneArg(x, qx, ctx);
  }

  /** The length of the buckets of a date function, when it has one. */
  function BucketSeconds(name: string, args: seq<Node>): Option<nat> {
    match CallOf(name)
    case Some(Every(secs)) => Some(secs)
    case Some(EveryInterval) =>
      if |args| > 1 && args[1].Interval? && args[1].seconds.scale == 0 && args[1].seconds.mantissa > 0
      then Some(args[1].seconds.mantissa) else None
    case _ => None
  }

  /** The first argument of a date function as it is emitted: a string there is a date literal. */
  function DateArg(args: seq<Node>, ctx: Ctx): Result<Sq, EmitError>
    requires |args| > 0
  {
    if args[0].Str? then ParseDate(args[0].text, ctx) else Emit(args[0], ctx)
  }

  /** Every bucket function: its emitted text starts a bucket at the greatest multiple not after the instant exactly
      when the epoch is not negative or is such a multiple. */
  lemma BucketBorder(name: string, args: seq<Node>, q: Sq, qx: Sq, secs: nat, t: real, row: Row, ctx: Ctx,
                     like: Matcher)
    requires |args| > 0 && Emit(Func(name, args, NoParams, false), ctx) == Success(q)
    requires BucketSeconds(name, args) == Some(secs) && secs > 0
    requires DateArg(args, ctx) == Success(qx) && Evaluates(qx, t, row, like)
    ensures var v := Eval(q, row, like);
            v.Some? && v.value.VInt?
            && (IsBucketStart(v.value.n, t, secs) <==> t >= 0.0 || (Whole(t) && t.Floor % secs == 0))
  {
    var a := EmitArgs(args, ctx).value;
    NameStands(name);
    ArgsEmitted(args, a, ctx, 0);
    BucketIs(qx, secs, t, row, like);
    BucketExactlyWhen(t, secs);
    assert q == Bucket(qx, Decimal(secs, 0));
  }

  predicate NamedBucket(name: string, secs: nat) {
    var n := ToLower(name);
    || (n == "tostartofminute" && secs == 60)
    || (n == "tostartofhour" && secs == 60 * 60)
    || ((n == "tostartofday" || n == "todate") && secs == 24 * 60 * 60)
  }

  lemma NamedSeconds(name: string, secs: nat)
    requires NamedBucket(name, secs)
    ensures CallOf(name) == Some(Every(secs)) && secs > 0
  {
  }

  /** By name: the emitted text starts a bucket of that many seconds, for every instant from the epoch on. */
  lemma BucketByName(name: string, args: seq<Node>, q: Sq, qx: Sq, secs: nat, t: real, row: Row, ctx: Ctx,
                     like: Matcher)
    requires NamedBucket(name, secs)
    requires |args| > 0 && Emit(Func(name, args, NoParams, false), ctx) == Success(q)
    requires DateArg(args, ctx) == Success(qx) && Evaluates(qx, t, row, like) && t >= 0.0
    ensures var v := Eval(q, row, like); v.Some? && v.value.VInt? && IsBucketStart(v.value.n, t, secs)
  {
    NamedSeconds(name, secs);
    BucketBorder(name, args, q, qx, secs, t, row, ctx, like);
  }

  lemma FirstDayIs(args: seq<Node>)
    ensures FirstDay(args) == if WeekMode(args).Some? then Some(WeekMode(args).value % 2) else None
  {
  }

  /** toMonday and toStartOfWeek, likewise. */
  lemma WeekBorder(name: string, args: seq<Node>, q: Sq, qx: Sq, t: real, row: Row, ctx: Ctx, like: Matcher)
    requires CallOf(name) == Some(EveryMonday) || CallOf(name) == Some(EveryWeek)
    requires |args| > 0 && Emit(Func(name, args, NoParams, false), ctx) == Success(q)
    requires DateArg(args, ctx) == Success(qx) && Evaluates(qx, t, row, like)
    ensures CallOf(name) == Some(EveryWeek) ==> FirstDay(args).Some?
    ensures var w := if CallOf(name) == Some(EveryMonday) then 1 else FirstDay(args).value;
            var v := Eval(q, row, like);
            v.Some? && v.value.VInt?
            && (v.value.n as real == PreviousWeekday(t, w) <==>
                t >= 0.0 || Whole(t) || Trunc(t) % 86400 != 0 || Weekday(Trunc(t) / 86400) != w)
  {
    NameStands(name);
    var a := EmitArgs(args, ctx).value;
    if CallOf(name) == Some(EveryWeek) {
      FirstDayIs(args);
    }
    var w := if CallOf(name) == Some(EveryMonday) then 1 else FirstDay(args).value;
    ArgsEmitted(args, a, ctx, 0);
    assert q == Week(qx, w);
    WeekIs(qx, w, t, row, like);
    WeekExactlyWhen(t, w);
  }

  // ---- Inputs beyond them ----

  lemma OneArg(x: Node, qx: Sq, ctx: Ctx)
    requires Emit(x, ctx) == Success(qx)
    ensures EmitArgs([x], ctx) == Success([qx])
  {
    assert [x][1..] == [] && [qx] + [] == [qx];
  }

  lemma CallOfOne(name: string, x: Node, qx: Sq, ctx: Ctx)
    requires Emit(x, ctx) == Success(qx) && Arity(FnOf(name), 1)
    ensures Emit(Func(name, [x], NoParams, false), ctx) == EmitFn(FnOf(name), name, [x], [qx], ctx)
  {
    OneArg(x, qx, ctx);
  }

  /** No zone is given, so none is refused. */
  lemma TimeCallOfOne(name: string, x: Node, qx: Sq, ctx: Ctx)
    requires Emit(x, ctx).Success? && Arity(FnOf(name), 1) && TakesTime(FnOf(name)) && DateArg([x], ctx) == Success(qx)
    ensures Emit(Func(name, [x], NoParams, false), ctx) == EmitTimeFn(FnOf(name), name, [x], qx)
  {
    CallOfOne(name, x, Emit(x, ctx).value, ctx);
    assert ZonesOk(FnOf(name), [x]);
  }

  lemma HalfIs(row: Row, like: Matcher)
    ensures Evaluates(QNeg(QNum(Decimal(5, 1))), -0.5, row, like)
  {
    assert Pow10(0) == 1.0 && Pow10(1) == 10.0 && DecimalValue(Decimal(5, 1)) == 0.5;
  }

  lemma FloorOfHalf(row: Row, like: Matcher)
    ensures Eval(QCast(QNeg(QNum(Decimal(5, 1))), AsInteger), row, like) == Some(VInt(0)) && (-0.5).Floor == -1
  {
    HalfIs(row, like);
    CastIs(QNeg(QNum(Decimal(5, 1))), -0.5, row, like);
  }

  lemma FloorEmits(name: string, x: Node, qx: Sq, ctx: Ctx)
    requires name == "floor" && Emit(x, ctx) == Success(qx)
    ensures Emit(Func(name, [x], NoParams, false), ctx) == Success(QCast(qx, AsInteger))
  {
    assert ToLower(name) == name;
    CallOfOne(name, x, qx, ctx);
  }

  /** `floor(-0.5)` is 0. */
  lemma FloorWitness(name: string, row: Row, ctx: Ctx, like: Matcher)
    requires name == "floor"
    ensures var q := Emit(Func(name, [Neg(Num(Decimal(5, 1)))], NoParams, false), ctx);
            q.Success? && Eval(q.value, row, like) == Some(VInt(0)) && (-0.5).Floor == -1
  {
    FloorEmits(name, Neg(Num(Decimal(5, 1))), QNeg(QNum(Decimal(5, 1))), ctx);
    FloorOfHalf(row, like);
  }

  lemma HourBeforeEpoch(row: Row, like: Matcher)
    ensures Eval(Bucket(QNum(Decimal(-1800, 0)), Decimal(3600, 0)), row, like) == Some(VInt(0))
    ensures !IsBucketStart(0, -1800.0, 3600)
  {
    assert Evaluates(QNum(Decimal(-1800, 0)), -1800.0, row, like);
    BucketIs(QNum(Decimal(-1800, 0)), 3600, -1800.0, row, like);
  }

  lemma HourEmits(name: string, x: Node, qx: Sq, ctx: Ctx)
    requires name == "tostartofhour" && Emit(x, ctx).Success? && DateArg([x], ctx) == Success(qx)
    ensures Emit(Func(name, [x], NoParams, false), ctx) == Success(Bucket(qx, Decimal(3600, 0)))
  {
    assert ToLower(name) == name;
    TimeCallOfOne(name, x, qx, ctx);
  }

  /** `toStartOfHour('1969-12-31 23:30:00')`, half an hour before the epoch, is the epoch. */
  lemma BucketWitness(name: string, text: string, row: Row, ctx: Ctx, like: Matcher)
    requires name == "tostartofhour" && ctx.dates(text) == Some(-1800)
    ensures var q := Emit(Func(name, [Str(text)], NoParams, false), ctx);
            q.Success? && Eval(q.value, row, like) == Some(VInt(0)) && !IsBucketStart(0, -1800.0, 3600)
  {
    HourEmits(name, Str(text), QNum(Decimal(-1800, 0)), ctx);
    HourBeforeEpoch(row, like);
  }

  lemma WeekBeforeMonday(row: Row, like: Matcher)
    requires row.ms == -259200500
    ensures Eval(Week(QSeconds, 1), row, like) == Some(VInt(-259200)) && PreviousWeekday(-259200.5, 1) == -864000.0
  {
    assert (-259200.5).Floor == -259201 && Trunc(-259200.5) == -259200;
    WeekIs(QSeconds, 1, -259200.5, row, like);
  }

  lemma MondayEmits(name: string, x: Node, qx: Sq, ctx: Ctx)
    requires name == "tomonday" && Emit(x, ctx).Success? && DateArg([x], ctx) == Success(qx)
    ensures Emit(Func(name, [x], NoParams, false), ctx) == Success(Week(qx, 1))
  {
    assert ToLower(name) == name;
    TimeCallOfOne(name, x, qx, ctx);
  }

  /** `toMonday(timestamp)`, half a second before Monday, 29 December 1969, is that Monday. */
  lemma WeekWitness(name: string, timestamp: string, row: Row, ctx: Ctx, like: Matcher)
    requires name == "tomonday" && timestamp == "timestamp" && row.ms == -259200500
    ensures var q := Emit(Func(name, [Col(timestamp)], NoParams, false), ctx);
            && q.Success? && Eval(q.value, row, like) == Some(VInt(-259200))
            && PreviousWeekday(-259200.5, 1) == -864000.0
  {
    MondayEmits(name, Col(timestamp), QSeconds, ctx);
    WeekBeforeMonday(row, like);
  }

  lemma MinusOneIs(row: Row, crow: CRow, ctx: Ctx, like: Matcher)
    ensures Eval(QCast(QNeg(QNum(Decimal(1, 0))), AsInteger), row, like) == Some(VInt(-1))
    ensures Mean(Neg(Num(Decimal(1, 0))), crow, ctx, like) == Some(CNum(-1.0))
  {
    assert Pow10(0) == 1.0 && DecimalValue(Decimal(1, 0)) == 1.0;
    assert Eval(QNeg(QNum(Decimal(1, 0))), row, like) == Some(VInt(-1));
  }

  lemma CastEmits(name: string, x: Node, qx: Sq, ctx: Ctx)
    requires name == "touint32" && Emit(x, ctx) == Success(qx)
    ensures Emit(Func(name, [x], NoParams, false), ctx) == Success(QCast(qx, AsInteger))
  {
    assert ToLower(name) == name;
    CallOfOne(name, x, qx, ctx);
  }

  lemma BelowRange(name: string, x: Node, crow: CRow, ctx: Ctx, like: Matcher)
    requires name == "touint32" && Mean(x, crow, ctx, like) == Some(CNum(-1.0))
    ensures Mean(Func(name, [x], NoParams, false), crow, ctx, like) == None
  {
    assert ToLower(name) == name;
    assert CallOf(name) == Some(Truncated(0, 0xFFFF_FFFF)) && Trunc(-1.0) == -1;
  }

  /** `toUInt32(-1)` is -1, which no UInt32 is; such casts have no meaning here. */
  lemma CastWitness(name: string, row: Row, crow: CRow, ctx: Ctx, like: Matcher)
    requires name == "touint32"
    ensures var e := Func(name, [Neg(Num(Decimal(1, 0)))], NoParams, false);
            && Emit(e, ctx).Success? && Eval(Emit(e, ctx).value, row, like) == Some(VInt(-1))
            && Mean(e, crow, ctx, like) == None
  {
    CastEmits(name, Neg(Num(Decimal(1, 0))), QNeg(QNum(Decimal(1, 0))), ctx);
    MinusOneIs(row, crow, ctx, like);
    BelowRange(name, Neg(Num(Decimal(1, 0))), crow, ctx, like);
  }

  // ---- Zones ----

  predicate FirstOk(x: Node, ctx: Ctx) {
    x.Str? ==> ctx.dates(x.text).Some?
  }

  /** The zones that are UTC by another name, in any case, with white space around them or not. */
  ghost predicate UtcName(zone: string) {
    exists before, name, after ::
      AllWhite(before) && AllWhite(after) && zone == before + (name + after)
      && ToLower(name) in {"utc", "etc/utc", "etc/gmt", "gmt", "z"}
  }

  lemma UtcIs(zone: string)
    ensures IsUtc(zone) <==> UtcName(zone)
  {
    if IsUtc(zone) {
      var before, after := TrimIs(zone);
    }
    if before, name, after :|
      AllWhite(before) && AllWhite(after) && zone == before + (name + after)
      && ToLower(name) in {"utc", "etc/utc", "etc/gmt", "gmt", "z"}
    {
      BlackEnds(name);
      TrimOf(before, name, after);
    }
  }

  lemma BlackEnds(name: string)
    requires ToLower(name) in {"utc", "etc/utc", "etc/gmt", "gmt", "z"}
    ensures name != "" && !IsWhite(name[0]) && !IsWhite(name[|name| - 1])
  {
    var low := ToLower(name);
    assert |low| == |name| && low[0] == LowerChar(name[0]) && low[|low| - 1] == LowerChar(name[|name| - 1]);
  }

  /** A zone in the last of two arguments is checked, except in the mode slot of toStartOfWeek, where any
      string compiles as if it were UTC. */
  lemma ZoneCheckedWhen(fn: Fn, name: string, x: Node, zone: string, a: seq<Sq>, ctx: Ctx)
    requires TakesTime(fn) && Arity(fn, 2) && |a| == 2
    ensures EmitFn(fn, name, [x, Str(zone)], a, ctx).Success? <==>
            FirstOk(x, ctx) && (fn.StartOfWeek? || (UtcName(zone) && !fn.StartOfInterval?))
  {
    var args := [x, Str(zone)];
    UtcIs(zone);
    if !fn.StartOfWeek? && !fn.StartOfInterval? {
      assert ZonesOk(fn, args) ==> args[1].Str? && IsUtc(args[1].text);
    }
  }

  /** In the last of three it always is. */
  lemma LastZoneChecked(fn: Fn, name: string, x: Node, middle: Node, zone: string, a: seq<Sq>, ctx: Ctx)
    requires TakesTime(fn) && Arity(fn, 3) && |a| == 3
    ensures EmitFn(fn, name, [x, middle, Str(zone)], a, ctx).Success? <==>
            FirstOk(x, ctx) && UtcName(zone)
            && if fn.StartOfInterval? then middle.Interval? else FirstDay([x, middle]).Some?
  {
    var args := [x, middle, Str(zone)];
    UtcIs(zone);
    assert fn.StartOfInterval? || fn.StartOfWeek?;
    assert ZonesOk(fn, args) <==> args[2].Str? && IsUtc(args[2].text);
    assert WeekMode(args) == WeekMode([x, middle]);
    FirstDayIs([x, middle]);
  }
}

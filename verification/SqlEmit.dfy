/** The emitter: from the parsed tree to the SQLite expression it stands for, with its text. */
module SqlEmit {
  import opened Basics
  import opened SqlNumbers
  import opened SqlTokens
  import opened SqlSyntax

  datatype CastType = AsInteger | AsReal

  /** The SQLite expressions the emitter produces, one constructor for each text template. */
  datatype Sq =
    | QNum(value: Decimal)
    | QText(text: string)
    | QStar
    | QCol(name: string)
    | QAlias(name: string)
    | QSeconds                                    // (timestamp / 1000.0)
    | QNeg(operand: Sq)
    | QNot(operand: Sq)
    | QBin(op: BinOp, left: Sq, right: Sq)
    | QRealDiv(left: Sq, right: Sq)               // (l * 1.0 / r)
    | QIn(expr: Sq, list: seq<Sq>, negate: bool)
    | QLike(expr: Sq, pattern: Sq, negate: bool)
    | QBetween(expr: Sq, low: Sq, high: Sq, negate: bool)
    | QIsNull(expr: Sq, negate: bool)
    | QCast(expr: Sq, to: CastType)
    | QWrap(expr: Sq)                             // (x)
    | QCase(cond: Sq, then_: Sq, else_: Sq)
    | QTruncate(expr: Sq, modifiers: seq<Modifier>)   // strftime with date modifiers, as epoch seconds
    | QAbs(expr: Sq)

  /** SQLite's date modifiers: back to midnight, so many days on, and on to the next such weekday unless it is one. */
  datatype Modifier = DayStart | AddDays(days: int) | ToWeekday(weekday: nat)

  datatype EmitError =
    | UnknownColumn(name: string)
    | BadDate(text: string)
    | BadArity(name: string)
    | BadTimezone(name: string)
    | BadMode(name: string)
    | NeedsInterval
    | Unsupported(name: string)

  /** `now()` baked in, the aliases in scope, and the reading of date literals as epoch seconds. */
  datatype Ctx = Ctx(now: int, aliases: set<string>, dates: string -> Option<int>)

  datatype CType = UInt8 | UInt32 | UInt64 | Float64 | StringType | DateTime | Date {

    predicate IsTime() {
      DateTime? || Date?
    }
  }

  /** The functions of the modelled fragment, by the template that is emitted for them. */
  datatype Fn = ToInt | ToFloat | ToDateTime | IntDiv | StartOfInterval | StartOf(seconds: nat)
              | ToDate | StartOfWeek | ToMonday | ToUnix | Abs | Floor | If | Now | OtherFn

  function LowerChar(c: char): char {
    if 'A' <= c <= 'Z' then c - 'A' + 'a' else c
  }

  function ToLower(s: string): string {
    seq(|s|, i requires 0 <= i < |s| => LowerChar(s[i]))
  }

  function FnOf(name: string): Fn {
    match ToLower(name)
    case "touint32" => ToInt
    case "touint64" => ToInt
    case "toint32" => ToInt
    case "toint64" => ToInt
    case "tofloat64" => ToFloat
    case "tofloat32" => ToFloat
    case "todatetime" => ToDateTime
    case "intdiv" => IntDiv
    case "tostartofinterval" => StartOfInterval
    case "tostartofminute" => StartOf(60)
    case "tostartofhour" => StartOf(3600)
    case "tostartofday" => StartOf(86400)
    case "todate" => ToDate
    case "tostartofweek" => StartOfWeek
    case "tomonday" => ToMonday
    case "tounixtimestamp" => ToUnix
    case "abs" => Abs
    case "floor" => Floor
    case "if" => If
    case "now" => Now
    case _ => OtherFn
  }

  predicate IsColumnIndex(s: string) {
    || (|s| == 1 && '1' <= s[0] <= '9')
    || (|s| == 2 && ((s[0] == '1' && IsDigit(s[1])) || (s[0] == '2' && s[1] == '0')))
  }

  predicate HasPrefix(s: string, p: string) {
    |p| <= |s| && s[..|p|] == p
  }

  predicate IsColumn(name: string) {
    || (HasPrefix(name, "blob") && IsColumnIndex(name[4..]))
    || (HasPrefix(name, "double") && IsColumnIndex(name[6..]))
    || name == "index1" || name == "_sample_interval" || name == "timestamp" || name == "dataset"
  }

  function ColType(name: string): CType {
    if name == "timestamp" then DateTime
    else if HasPrefix(name, "double") then Float64
    else if name == "_sample_interval" then UInt32
    else StringType
  }

  function InferType(e: Node): CType {
    match e
    case Num(d) => if d.scale == 0 then UInt64 else Float64
    case Col(name) => ColType(name)
    case Binary(op, _, _) => if op.IsCompare() || op.And? || op.Or? then UInt8 else Float64
    case Neg(x) => InferType(x)
    case Not(_) | In(_, _, _) | Like(_, _, _) | Between(_, _, _, _) | IsNull(_, _) => UInt8
    case Func(name, args, _, _) => InferFn(FnOf(name), args)
    case _ => StringType
  }

  /** `if` takes the type of its second argument, whatever its third is. */
  function InferFn(fn: Fn, args: seq<Node>): CType
    decreases args
  {
    match fn
    case ToInt | IntDiv | Floor => UInt64
    case ToUnix => UInt32
    case ToDate | StartOfWeek | ToMonday => Date
    case ToDateTime | StartOfInterval | StartOf(_) | Now => DateTime
    case If => if |args| > 1 then InferType(args[1]) else StringType
    case ToFloat | Abs | OtherFn => Float64
  }

  function ParseDate(text: string, ctx: Ctx): Result<Sq, EmitError> {
    if ctx.dates(text).Some? then Success(QNum(Decimal(ctx.dates(text).value, 0))) else Failure(BadDate(text))
  }

  /** A string literal facing a date or time becomes epoch seconds. */
  function EmitOperand(e: Node, against: Node, ctx: Ctx): Result<Sq, EmitError>
    decreases e, 1
  {
    if e.Str? && InferType(against).IsTime() then ParseDate(e.text, ctx) else Emit(e, ctx)
  }

  function Emit(e: Node, ctx: Ctx): Result<Sq, EmitError>
    decreases e, 0
  {
    match e
    case Num(d) => Success(QNum(d))
    case Str(text) => Success(QText(text))
    case Star => Success(QStar)
    case Interval(d) => Success(QNum(d))
    case Col(name) =>
      if name == "timestamp" then Success(QSeconds)
      else if IsColumn(name) then Success(QCol(name))
      else if name in ctx.aliases then Success(QAlias(name))
      else Failure(UnknownColumn(name))
    case Not(x) => var q :- Emit(x, ctx); Success(QNot(q))
    case Neg(x) => var q :- Emit(x, ctx); Success(QNeg(q))
    case Binary(op, l, r) =>
      if op.Div? then
        var x :- Emit(l, ctx);
        var y :- Emit(r, ctx);
        Success(QRealDiv(x, y))
      else if op.IsCompare() then
        var x :- EmitOperand(l, r, ctx);
        var y :- EmitOperand(r, l, ctx);
        Success(QBin(if op.LtGt? then Ne else op, x, y))
      else
        var x :- Emit(l, ctx);
        var y :- Emit(r, ctx);
        Success(QBin(op, x, y))
    case In(x, list, negate) =>
      var items :- EmitList(list, x, ctx);
      var q :- Emit(x, ctx);
      Success(QIn(q, items, negate))
    case Like(x, pat, negate) =>
      var q :- Emit(x, ctx);
      var p :- Emit(pat, ctx);
      Success(QLike(q, p, negate))
    case Between(x, low, high, negate) =>
      var q :- Emit(x, ctx);
      var l :- EmitOperand(low, x, ctx);
      var h :- EmitOperand(high, x, ctx);
      Success(QBetween(q, l, h, negate))
    case IsNull(x, negate) => var q :- Emit(x, ctx); Success(QIsNull(q, negate))
    case Func(name, args, _, _) =>
      if !Arity(FnOf(name), |args|) then Failure(BadArity(name))
      else
        var a :- EmitArgs(args, ctx);
        EmitFn(FnOf(name), name, args, a, ctx)
  }

  /** A literal whose text starts with a minus sign; only an interval can be one in a parsed query. */
  predicate NegativeLiteral(e: Node) {
    (e.Num? && e.value.mantissa < 0) || (e.Interval? && e.seconds.mantissa < 0)
  }

  function EmitList(list: seq<Node>, against: Node, ctx: Ctx): (r: Result<seq<Sq>, EmitError>)
    ensures r.Success? ==> |r.value| == |list|
    decreases list, 2
  {
    if list == [] then Success([])
    else
      var head :- EmitOperand(list[0], against, ctx);
      var tail :- EmitList(list[1..], against, ctx);
      Success([head] + tail)
  }

  function EmitArgs(list: seq<Node>, ctx: Ctx): (r: Result<seq<Sq>, EmitError>)
    ensures r.Success? ==> |r.value| == |list|
    decreases list, 2
  {
    if list == [] then Success([])
    else
      var head :- Emit(list[0], ctx);
      var tail :- EmitArgs(list[1..], ctx);
      Success([head] + tail)
  }

  /** The emitted argument at every position. */
  lemma {:induction false} ArgsEmitted(list: seq<Node>, qs: seq<Sq>, ctx: Ctx, i: nat)
    requires EmitArgs(list, ctx) == Success(qs) && i < |list|
    ensures Emit(list[i], ctx) == Success(qs[i])
  {
    if i > 0 {
      ArgsEmitted(list[1..], qs[1..], ctx, i - 1);
    }
  }

  /** The emitted item at every position. */
  lemma {:induction false} ItemsEmitted(list: seq<Node>, against: Node, qs: seq<Sq>, ctx: Ctx, i: nat)
    requires EmitList(list, against, ctx) == Success(qs) && i < |list|
    ensures EmitOperand(list[i], against, ctx) == Success(qs[i])
  {
    if i > 0 {
      ItemsEmitted(list[1..], against, qs[1..], ctx, i - 1);
    }
  }

  predicate Arity(fn: Fn, n: nat) {
    match fn
    case ToInt | ToFloat | Abs | Floor => n == 1
    case ToDateTime | StartOf(_) | ToDate | ToMonday | ToUnix => 1 <= n <= 2
    case IntDiv => n == 2
    case StartOfInterval => 2 <= n <= 3
    case StartOfWeek => 1 <= n <= 3
    case If => n == 3
    case Now => n == 0
    case OtherFn => true
  }

  /** Functions whose first argument is a DateTime, so that a string there is a date literal. */
  predicate TakesTime(fn: Fn) {
    fn.ToDateTime? || fn.ToDate? || fn.StartOfInterval? || fn.StartOf? || fn.StartOfWeek? || fn.ToMonday? || fn.ToUnix?
  }

  predicate IsUtc(zone: string) {
    var z := ToLower(Trim(zone));
    z == "utc" || z == "etc/utc" || z == "etc/gmt" || z == "gmt" || z == "z"
  }

  /** Everything past the mode or interval slot must be a UTC zone name. */
  predicate ZonesOk(fn: Fn, args: seq<Node>) {
    forall i :: (if fn.StartOfInterval? || fn.StartOfWeek? then 2 else 1) <= i < |args| ==>
        args[i].Str? && IsUtc(args[i].text)
  }

  /** The mode of toStartOfWeek: its low bit picks Monday over Sunday. */
  function WeekMode(args: seq<Node>): Option<nat> {
    if |args| < 2 || args[1].Str? then Some(0)
    else if args[1].Num? && args[1].value.scale == 0 && 0 <= args[1].value.mantissa <= 9 then
      Some(args[1].value.mantissa)
    else None
  }

  function EmitFn(fn: Fn, name: string, args: seq<Node>, a: seq<Sq>, ctx: Ctx): Result<Sq, EmitError>
    requires |a| == |args| && Arity(fn, |args|)
  {
    if TakesTime(fn) then
      var x :- if args[0].Str? then ParseDate(args[0].text, ctx) else Success(a[0]);
      if ZonesOk(fn, args) then EmitTimeFn(fn, name, args, x) else Failure(BadTimezone(name))
    else
      match fn
      case ToInt | Floor => Success(QCast(a[0], AsInteger))
      case ToFloat => Success(QCast(a[0], AsReal))
      case IntDiv => Success(QBin(Div, QCast(a[0], AsInteger), QCast(a[1], AsInteger)))
      case Abs => Success(QAbs(a[0]))
      case If => Success(QCase(a[0], a[1], a[2]))
      case Now => Success(QNum(Decimal(ctx.now, 0)))
      case _ => Failure(Unsupported(name))
  }

  function EmitTimeFn(fn: Fn, name: string, args: seq<Node>, x: Sq): Result<Sq, EmitError>
    requires TakesTime(fn) && Arity(fn, |args|)
  {
    match fn
    case ToDateTime => Success(QWrap(x))
    case ToUnix => Success(QCast(x, AsInteger))
    case StartOf(secs) => Success(Bucket(x, Decimal(secs, 0)))
    case ToDate => Success(Bucket(x, Decimal(86400, 0)))
    case StartOfInterval => if args[1].Interval? then Success(Bucket(x, args[1].seconds)) else Failure(NeedsInterval)
    case ToMonday => Success(Week(x, 1))
    case _ =>
      var mode := WeekMode(args);
      if mode.None? then Failure(BadMode(name)) else Success(Week(x, mode.value % 2))
  }

  /** A week back from midnight, and on to the weekday. */
  function Week(x: Sq, weekday: nat): Sq {
    QTruncate(x, [DayStart, AddDays(-6), ToWeekday(weekday)])
  }

  /** ((CAST(x AS INTEGER) / secs) * secs) */
  function Bucket(x: Sq, secs: Decimal): Sq {
    QBin(Mul, QBin(Div, QCast(x, AsInteger), QNum(secs)), QNum(secs))
  }
}

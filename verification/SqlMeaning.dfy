/** Two meanings of one expression: the ClickHouse value over a row in seconds, and the value SQLite gives
    the emitted expression over the stored row in milliseconds. */
module SqlMeaning {
  import opened Basics
  import opened SqlNumbers
  import opened SqlTokens
  import opened SqlSyntax
  import opened SqlEmit

  /** SQLite storage classes. */
  datatype Val = VNull | VInt(n: int) | VReal(r: real) | VText(s: string)

  /** ClickHouse values; a DateTime is kept apart from the number of seconds it holds. */
  datatype CVal = CNull | CNum(x: real) | CTime(t: real) | CStr(s: string)

  datatype Tri = True3 | False3 | Unknown3

  datatype Row = Row(ms: int, cols: map<string, Val>)
  datatype CRow = CRow(seconds: real, cols: map<string, CVal>)

  /** The pattern matching shared by both engines (LIKE runs with case_sensitive_like=ON). */
  type Matcher = (string, string) -> bool

  /** Rounding towards zero: CAST(x AS INTEGER). */
  function Trunc(x: real): int {
    if x >= 0.0 then x.Floor else -((-x).Floor)
  }

  function TruncDiv(a: int, b: int): int
    requires b != 0
  {
    if (a >= 0) == (b >= 0) then Abs_(a) / Abs_(b) else -(Abs_(a) / Abs_(b))
  }

  function TruncMod(a: int, b: int): int
    requires b != 0
  {
    if a >= 0 then Abs_(a) % Abs_(b) else -(Abs_(a) % Abs_(b))
  }

  function Abs_(a: int): nat {
    if a >= 0 then a else -a
  }

  /** Day of the week of a day counted from 1970-01-01, a Thursday; Sunday is 0. */
  function Weekday(day: int): nat {
    (day + 4) % 7
  }

  predicate TextLess(a: string, b: string) {
    b != "" && (a == "" || a[0] < b[0] || (a[0] == b[0] && TextLess(a[1..], b[1..])))
  }

  predicate IsNumber(v: Val) {
    v.VInt? || v.VReal?
  }

  function NumberOf(v: Val): real
    requires IsNumber(v)
  {
    if v.VInt? then v.n as real else v.r
  }

  function OfBool(b: bool): Val {
    VInt(if b then 1 else 0)
  }

  function OfTri(t: Tri): Val {
    match t case True3 => VInt(1) case False3 => VInt(0) case Unknown3 => VNull
  }

  function And3(a: Tri, b: Tri): Tri {
    if a.False3? || b.False3? then False3 else if a.True3? && b.True3? then True3 else Unknown3
  }

  function Not3(a: Tri): Tri {
    match a case True3 => False3 case False3 => True3 case Unknown3 => Unknown3
  }

  function Or3(a: Tri, b: Tri): Tri {
    Not3(And3(Not3(a), Not3(b)))
  }

  function ToTri(b: bool): Tri {
    if b then True3 else False3
  }

  predicate Holds<T>(op: BinOp, less: (T, T) -> bool, a: T, b: T) {
    match op
    case Eq => !less(a, b) && !less(b, a)
    case Ne | LtGt => less(a, b) || less(b, a)
    case Lt => less(a, b)
    case Le => !less(b, a)
    case Gt => less(b, a)
    case _ => !less(a, b)
  }

  function RealLess(): (real, real) -> bool {
    (a, b) => a < b
  }

  function StringLess(): (string, string) -> bool {
    (a, b) => TextLess(a, b)
  }

  // ---- SQLite ----

  /** Arithmetic on text is outside the model. */
  function Arith(op: BinOp, a: Val, b: Val): Option<Val> {
    if a.VText? || b.VText? then None
    else if a.VNull? || b.VNull? then Some(VNull)
    else if a.VInt? && b.VInt? then ArithInt(op, a.n, b.n)
    else ArithReal(op, NumberOf(a), NumberOf(b))
  }

  function ArithInt(op: BinOp, a: int, b: int): Option<Val> {
    match op
    case Add => Some(VInt(a + b))
    case Sub => Some(VInt(a - b))
    case Mul => Some(VInt(a * b))
    case Div => Some(if b == 0 then VNull else VInt(TruncDiv(a, b)))
    case Mod => Some(if b == 0 then VNull else VInt(TruncMod(a, b)))
    case _ => None
  }

  function ArithReal(op: BinOp, a: real, b: real): Option<Val> {
    match op
    case Add => Some(VReal(a + b))
    case Sub => Some(VReal(a - b))
    case Mul => Some(VReal(a * b))
    case Div => Some(if b == 0.0 then VNull else VReal(a / b))
    case Mod => Some(if Trunc(b) == 0 then VNull else VReal(TruncMod(Trunc(a), Trunc(b)) as real))
    case _ => None
  }

  /** Numbers sort before text; NULL compares to nothing. */
  function Compare(op: BinOp, a: Val, b: Val): Tri {
    if a.VNull? || b.VNull? then Unknown3
    else if IsNumber(a) && IsNumber(b) then ToTri(Holds(op, RealLess(), NumberOf(a), NumberOf(b)))
    else if a.VText? && b.VText? then ToTri(Holds(op, StringLess(), a.s, b.s))
    else ToTri(Holds(op, RealLess(), if a.VText? then 1.0 else 0.0, if b.VText? then 1.0 else 0.0))
  }

  function Truth(v: Val): Option<Tri> {
    match v
    case VNull => Some(Unknown3)
    case VInt(n) => Some(ToTri(n != 0))
    case VReal(r) => Some(ToTri(r != 0.0))
    case VText(_) => None
  }

  function CastInt(v: Val): Option<Val> {
    match v
    case VReal(r) => Some(VInt(Trunc(r)))
    case VText(_) => None
    case _ => Some(v)
  }

  /** One date modifier of strftime on an instant; the time of day stays but for the first. */
  function Modify(t: int, m: Modifier): int {
    match m
    case DayStart => t / 86400 * 86400
    case AddDays(n) => t + n * 86400
    case ToWeekday(w) => t + (w - Weekday(t / 86400)) % 7 * 86400
  }

  /** strftime('%s', t, 'unixepoch', ...): the modifiers one after another. */
  function Modified(t: int, modifiers: seq<Modifier>): int
    decreases modifiers
  {
    if modifiers == [] then t else Modified(Modify(t, modifiers[0]), modifiers[1..])
  }

  function Eval(q: Sq, row: Row, like: Matcher): Option<Val>
    decreases q, 0
  {
    match q
    case QNum(d) => Some(if d.scale == 0 then VInt(d.mantissa) else VReal(DecimalValue(d)))
    case QText(s) => Some(VText(s))
    case QCol(name) => if name in row.cols then Some(row.cols[name]) else None
    case QSeconds => Some(VReal(row.ms as real / 1000.0))
    case QNeg(x) => var v :- Eval(x, row, like); Arith(Sub, VInt(0), v)
    case QNot(x) =>
      var v :- Eval(x, row, like);
      var t :- Truth(v);
      Some(OfTri(Not3(t)))
    case QBin(op, l, r) =>
      var a :- Eval(l, row, like);
      var b :- Eval(r, row, like);
      EvalBin(op, a, b)
    case QRealDiv(l, r) =>
      var a :- Eval(l, row, like);
      var b :- Eval(r, row, like);
      var scaled :- Arith(Mul, a, VReal(1.0));
      Arith(Div, scaled, b)
    case QIn(x, list, negate) =>
      var v :- Eval(x, row, like);
      var t :- EvalIn(v, list, row, like);
      Some(OfTri(if negate then Not3(t) else t))
    case QLike(x, p, negate) =>
      var v :- Eval(x, row, like);
      var pat :- Eval(p, row, like);
      EvalLike(v, pat, negate, like)
    case QBetween(x, low, high, negate) =>
      var v :- Eval(x, row, like);
      var l :- Eval(low, row, like);
      var h :- Eval(high, row, like);
      var t := And3(Compare(Ge, v, l), Compare(Le, v, h));
      Some(OfTri(if negate then Not3(t) else t))
    case QIsNull(x, negate) => var v :- Eval(x, row, like); Some(OfBool(v.VNull? != negate))
    case QCast(x, to) =>
      var v :- Eval(x, row, like);
      if to.AsInteger? then CastInt(v)
      else if IsNumber(v) then Some(VReal(NumberOf(v)))
      else if v.VNull? then Some(v)
      else None
    case QWrap(x) => Eval(x, row, like)
    case QCase(c, a, b) =>
      var v :- Eval(c, row, like);
      var t :- Truth(v);
      if t.True3? then Eval(a, row, like) else Eval(b, row, like)
    case QTruncate(x, modifiers) =>
      var v :- Eval(x, row, like);
      var i :- CastInt(v);
      Some(if i.VInt? then VInt(Modified(i.n, modifiers)) else i)
    case QAbs(x) =>
      var v :- Eval(x, row, like);
      (match v
       case VInt(n) => Some(VInt(Abs_(n)))
       case VReal(r) => Some(VReal(if r < 0.0 then -r else r))
       case VNull => Some(v)
       case VText(_) => None)
    case QStar => None
    case QAlias(_) => None
  }

  function EvalBin(op: BinOp, a: Val, b: Val): Option<Val> {
    if op.IsCompare() then Some(OfTri(Compare(op, a, b)))
    else if op.And? || op.Or? then
      var x :- Truth(a);
      var y :- Truth(b);
      Some(OfTri(if op.And? then And3(x, y) else Or3(x, y)))
    else Arith(op, a, b)
  }

  function EvalLike(v: Val, pat: Val, negate: bool, like: Matcher): Option<Val> {
    if v.VNull? || pat.VNull? then Some(VNull)
    else if v.VText? && pat.VText? then Some(OfBool(like(v.s, pat.s) != negate))
    else None
  }

  function EvalIn(v: Val, list: seq<Sq>, row: Row, like: Matcher): Option<Tri>
    decreases list, 1
  {
    if list == [] then Some(False3)
    else
      var item :- Eval(list[0], row, like);
      var tail :- EvalIn(v, list[1..], row, like);
      Some(Or3(Compare(Eq, v, item), tail))
  }

  // ---- ClickHouse ----

  predicate IsNumeric(c: CVal) {
    c.CNum? || c.CTime?
  }

  function Amount(c: CVal): real
    requires IsNumeric(c)
  {
    if c.CNum? then c.x else c.t
  }

  predicate Whole(x: real) {
    x == x.Floor as real
  }

  /** Division is real. A DateTime moves by seconds; two DateTimes differ by seconds. A zero divisor, and a
      fractional operand of the remainder, are outside the fragment. */
  function CArith(op: BinOp, a: CVal, b: CVal): Option<CVal> {
    if a.CStr? || b.CStr? then None
    else if a.CNull? || b.CNull? then Some(CNull)
    else if a.CTime? || b.CTime? then
      match op
      case Add => if a.CTime? && b.CTime? then None else Some(CTime(Amount(a) + Amount(b)))
      case Sub => if !a.CTime? then None else if b.CTime? then Some(CNum(a.t - b.t)) else Some(CTime(a.t - b.x))
      case _ => None
    else
      match op
      case Add => Some(CNum(a.x + b.x))
      case Sub => Some(CNum(a.x - b.x))
      case Mul => Some(CNum(a.x * b.x))
      case Div => if b.x == 0.0 then None else Some(CNum(a.x / b.x))
      case Mod =>
        if b.x == 0.0 || !Whole(a.x) || !Whole(b.x) then None
        else Some(CNum(TruncMod(a.x.Floor, b.x.Floor) as real))
      case _ => None
  }

  /** Comparing text with a number is a type error. */
  function CCompare(op: BinOp, a: CVal, b: CVal): Option<Tri> {
    if a.CNull? || b.CNull? then Some(Unknown3)
    else if IsNumeric(a) && IsNumeric(b) then Some(ToTri(Holds(op, RealLess(), Amount(a), Amount(b))))
    else if a.CStr? && b.CStr? then Some(ToTri(Holds(op, StringLess(), a.s, b.s)))
    else None
  }

  function CTruth(c: CVal): Option<Tri> {
    match c
    case CNull => Some(Unknown3)
    case CNum(x) => Some(ToTri(x != 0.0))
    case _ => None
  }

  function COfTri(t: Tri): CVal {
    match t case True3 => CNum(1.0) case False3 => CNum(0.0) case Unknown3 => CNull
  }

  /** A string literal facing a DateTime is a date literal. */
  function AsDate(e: Node, v: CVal, against: CVal, ctx: Ctx): Option<CVal> {
    if e.Str? && against.CTime? then
      var n :- ctx.dates(e.text);
      Some(CTime(n as real))
    else Some(v)
  }

  /** Truncation to the greatest multiple of `secs` that is not after `t`. */
  function FloorTo(t: real, secs: nat): real
    requires secs > 0
  {
    (t.Floor / secs * secs) as real
  }

  /** Midnight of the latest day not after `t` that falls on weekday `w`. */
  function PreviousWeekday(t: real, w: nat): real {
    var day := t.Floor / 86400;
    ((day - (Weekday(day) - w) % 7) * 86400) as real
  }

  function Mean(e: Node, row: CRow, ctx: Ctx, like: Matcher): Option<CVal>
    decreases e, 0
  {
    match e
    case Num(d) => Some(CNum(DecimalValue(d)))
    case Interval(d) => Some(CNum(DecimalValue(d)))
    case Str(s) => Some(CStr(s))
    case Col(name) =>
      if name == "timestamp" then Some(CTime(row.seconds)) else if name in row.cols then Some(row.cols[name]) else None
    case Neg(x) =>
      var v :- Mean(x, row, ctx, like);
      if v.CNull? then Some(CNull) else if v.CNum? then Some(CNum(-v.x)) else None
    case Not(x) =>
      var v :- Mean(x, row, ctx, like);
      var t :- CTruth(v);
      Some(COfTri(Not3(t)))
    case Binary(op, l, r) =>
      var a :- Mean(l, row, ctx, like);
      var b :- Mean(r, row, ctx, like);
      MeanBin(op, l, r, a, b, ctx)
    case In(x, list, negate) =>
      var v :- Mean(x, row, ctx, like);
      var t :- MeanIn(v, list, row, ctx, like);
      Some(COfTri(if negate then Not3(t) else t))
    case Like(x, p, negate) =>
      var v :- Mean(x, row, ctx, like);
      var pat :- Mean(p, row, ctx, like);
      if v.CNull? || pat.CNull? then Some(CNull)
      else if v.CStr? && pat.CStr? then Some(COfTri(ToTri(like(v.s, pat.s) != negate)))
      else None
    case Between(x, low, high, negate) =>
      var v :- Mean(x, row, ctx, like);
      var l :- Mean(low, row, ctx, like);
      var h :- Mean(high, row, ctx, like);
      var l' :- AsDate(low, l, v, ctx);
      var h' :- AsDate(high, h, v, ctx);
      var ge :- CCompare(Ge, v, l');
      var le :- CCompare(Le, v, h');
      Some(COfTri(if negate then Not3(And3(ge, le)) else And3(ge, le)))
    case IsNull(x, negate) => var v :- Mean(x, row, ctx, like); Some(COfTri(ToTri(v.CNull? != negate)))
    case Func(name, args, _, _) =>
      var call :- CallOf(name);
      MeanFn(call, args, row, ctx, like)
    case Star => None
  }

  function MeanBin(op: BinOp, l: Node, r: Node, a: CVal, b: CVal, ctx: Ctx): Option<CVal> {
    if op.IsCompare() then
      var a' :- AsDate(l, a, b, ctx);
      var b' :- AsDate(r, b, a, ctx);
      var t :- CCompare(op, a', b');
      Some(COfTri(t))
    else if op.And? || op.Or? then
      var x :- CTruth(a);
      var y :- CTruth(b);
      Some(COfTri(if op.And? then And3(x, y) else Or3(x, y)))
    else CArith(op, a, b)
  }

  function MeanIn(v: CVal, list: seq<Node>, row: CRow, ctx: Ctx, like: Matcher): Option<Tri>
    decreases list, 1
  {
    if list == [] then Some(False3)
    else
      var item :- Mean(list[0], row, ctx, like);
      var item' :- AsDate(list[0], item, v, ctx);
      var same :- CCompare(Eq, v, item');
      var tail :- MeanIn(v, list[1..], row, ctx, like);
      Some(Or3(same, tail))
  }

  // ---- Functions ----

  /** The ClickHouse functions of the fragment; an integer cast with the range of its type. */
  datatype Call =
    | Truncated(low: int, high: int)
    | Widened
    | Quotient
    | Absolute
    | RoundedDown
    | Choice
    | Present
    | ToInstant
    | Epoch
    | Every(seconds: nat)
    | EveryInterval
    | EveryMonday
    | EveryWeek
  {
    /** A string given to it first is a date literal. */
    predicate OfInstant() {
      ToInstant? || Epoch? || Every? || EveryInterval? || EveryMonday? || EveryWeek?
    }

    /** Whether it can be given so many arguments; behind those of its own there may be a zone. */
    predicate Counts(n: nat) {
      match this
      case Present => n == 0
      case Quotient => n == 2
      case Choice => n == 3
      case EveryInterval => n == 2 || n == 3
      case EveryWeek => n == 1 || n == 2 || n == 3
      case ToInstant | Epoch | Every(_) | EveryMonday => n == 1 || n == 2
      case _ => n == 1
    }
  }

  /** SQLite integers have 64 bits with a sign, so the upper half of UInt64 is out of reach. */
  const MAX_SQLITE_INT: int := 0x7FFF_FFFF_FFFF_FFFF

  /** What a name means, in whatever case it is written. */
  function CallOf(name: string): Option<Call> {
    match ToLower(name)
    case "now" => Some(Present)
    case "if" => Some(Choice)
    case "abs" => Some(Absolute)
    case "floor" => Some(RoundedDown)
    case "intdiv" => Some(Quotient)
    case "tofloat32" => Some(Widened)
    case "tofloat64" => Some(Widened)
    case "toint32" => Some(Truncated(-0x8000_0000, 0x7FFF_FFFF))
    case "toint64" => Some(Truncated(-MAX_SQLITE_INT - 1, MAX_SQLITE_INT))
    case "touint32" => Some(Truncated(0, 0xFFFF_FFFF))
    case "touint64" => Some(Truncated(0, MAX_SQLITE_INT))
    case "todatetime" => Some(ToInstant)
    case "tounixtimestamp" => Some(Epoch)
    case "tostartofminute" => Some(Every(60))
    case "tostartofhour" => Some(Every(60 * 60))
    case "tostartofday" => Some(Every(24 * 60 * 60))
    case "todate" => Some(Every(24 * 60 * 60))
    case "tostartofinterval" => Some(EveryInterval)
    case "tomonday" => Some(EveryMonday)
    case "tostartofweek" => Some(EveryWeek)
    case _ => None
  }

  function MeanFn(call: Call, args: seq<Node>, row: CRow, ctx: Ctx, like: Matcher): Option<CVal>
    decreases args, 2
  {
    if !call.Counts(|args|) then None
    else if call.Present? then Some(CTime(ctx.now as real))
    else if |args| == 0 then None
    else
      var v :- Mean(args[0], row, ctx, like);
      if call.OfInstant() then
        var n := ctx.dates(if args[0].Str? then args[0].text else "");
        var t :- if !args[0].Str? then Some(v) else if n.Some? then Some(CTime(n.value as real)) else None;
        MeanTime(call, args, t)
      else
        match call
        case Choice =>
          var t :- CTruth(v);
          if t.True3? then Mean(args[1], row, ctx, like) else Mean(args[2], row, ctx, like)
        case Quotient =>
          var w :- Mean(args[1], row, ctx, like);
          MeanIntDiv(v, w)
        case _ => MeanNumeric(call, v)
  }

  function MeanIntDiv(a: CVal, b: CVal): Option<CVal> {
    if a.CStr? || b.CStr? then None
    else if a.CNull? || b.CNull? then Some(CNull)
    else if Whole(Amount(a)) && Whole(Amount(b)) && Amount(b) != 0.0 then
      Some(CNum(TruncDiv(Amount(a).Floor, Amount(b).Floor) as real))
    else None
  }

  function MeanNumeric(call: Call, v: CVal): Option<CVal> {
    if v.CStr? then None
    else if v.CNull? then Some(CNull)
    else
      match call
      case Truncated(low, high) =>
        if low <= Trunc(Amount(v)) <= high then Some(CNum(Trunc(Amount(v)) as real)) else None
      case Widened => Some(CNum(Amount(v)))
      case RoundedDown => if FloorIsExact(Amount(v)) then Some(CNum(Amount(v).Floor as real)) else None
      case Absolute => if v.CNum? then Some(CNum(if v.x < 0.0 then -v.x else v.x)) else None
      case _ => None
  }

  /** Where CAST(x AS INTEGER) is the floor: see SqlBorders.FloorExactlyWhen. */
  predicate FloorIsExact(x: real) {
    x >= 0.0 || Whole(x)
  }

  /** The first day of the week that a mode asks for: Sunday, day 0, or Monday, day 1. */
  function FirstDay(args: seq<Node>): Option<nat> {
    if |args| < 2 || args[1].Str? then Some(0)
    else if !args[1].Num? || args[1].value.scale != 0 then None
    else
      var mode := args[1].value.mantissa;
      if mode in {0, 2, 4, 6, 8} then Some(0) else if mode in {1, 3, 5, 7, 9} then Some(1) else None
  }

  /** Date functions over a non-negative epoch. */
  function MeanTime(call: Call, args: seq<Node>, v: CVal): Option<CVal>
    requires call.Counts(|args|)
  {
    if v.CNull? then Some(CNull)
    else if !IsNumeric(v) || (Amount(v) < 0.0 && !call.ToInstant?) then None
    else
      match call
      case ToInstant => Some(CTime(Amount(v)))
      case Epoch => Some(CNum(Amount(v).Floor as real))
      case Every(secs) => if secs > 0 then Some(CTime(FloorTo(Amount(v), secs))) else None
      case EveryInterval =>
        if args[1].Interval? && args[1].seconds.scale == 0 && args[1].seconds.mantissa > 0
        then Some(CTime(FloorTo(Amount(v), args[1].seconds.mantissa))) else None
      case EveryMonday => Some(CTime(PreviousWeekday(Amount(v), 1)))
      case EveryWeek =>
        var day :- FirstDay(args);
        Some(CTime(PreviousWeekday(Amount(v), day)))
      case _ => None
  }
}

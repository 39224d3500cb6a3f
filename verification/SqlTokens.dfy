/** Tokens of the Analytics Engine SQL dialect, as the tokenizer hands them to the parser. */
module SqlTokens {
  import opened Basics

  datatype BinOp = Or | And | Eq | Ne | LtGt | Lt | Le | Gt | Ge | Add | Sub | Mul | Div | Mod {

    /** The parser's PRECEDENCE table: higher binds tighter. */
    function Prec(): (p: nat)
      ensures 1 <= p <= 5
    {
      match this
      case Or => 1
      case And => 2
      case Eq | Ne | LtGt | Lt | Le | Gt | Ge => 3
      case Add | Sub => 4
      case Mul | Div | Mod => 5
    }

    function Spelling(): string {
      match this
      case Or => "OR" case And => "AND"
      case Eq => "=" case Ne => "!=" case LtGt => "<>" case Lt => "<" case Le => "<=" case Gt => ">" case Ge => ">="
      case Add => "+" case Sub => "-" case Mul => "*" case Div => "/" case Mod => "%"
    }

    predicate IsCompare() {
      Eq? || Ne? || LtGt? || Lt? || Le? || Gt? || Ge?
    }
  }

  datatype Kind = NumTok | StrTok | IdentTok | OpTok(op: BinOp) | PunctTok

  /** The keywords the expression parser looks for; `Unit` is an INTERVAL unit with its length. */
  datatype Word =
    | IN | LIKE | BETWEEN | IS | NOT | NULL | AND | OR | INTERVAL | DISTINCT
    | Unit(seconds: nat)
    | Plain

  /** The three spellings the parser compares `token.value` with whatever the token's kind is. */
  datatype Mark = LParen | RParen | Comma | NoMark

  /** `upper` and `mark` are the two precomputed matching keys of a token: the keyword its upper-cased
      value spells and the bracket or comma its value spells. */
  datatype RawToken = RawToken(kind: Kind, value: string, mark: Mark, upper: Word) {

    predicate IsWord(w: Word) {
      kind.IdentTok? && upper == w
    }
  }

  /** One value spells at most one of the two keys, and operators and numbers spell no bracket. */
  predicate Sane(t: RawToken) {
    t.mark.NoMark? || (t.upper.Plain? && (t.kind.StrTok? || t.kind.IdentTok? || t.kind.PunctTok?))
  }

  type Token = t: RawToken | Sane(t) witness RawToken(PunctTok, ".", NoMark, Plain)

  function UpperChar(c: char): char {
    if 'a' <= c <= 'z' then c - 'a' + 'A' else c
  }

  function ToUpper(s: string): (r: string)
    ensures |r| == |s|
  {
    seq(|s|, i requires 0 <= i < |s| => UpperChar(s[i]))
  }

  function Classify(upper: string): Word {
    match upper
    case "IN" => IN
    case "LIKE" => LIKE
    case "BETWEEN" => BETWEEN
    case "IS" => IS
    case "NOT" => NOT
    case "NULL" => NULL
    case "AND" => AND
    case "OR" => OR
    case "INTERVAL" => INTERVAL
    case "DISTINCT" => DISTINCT
    case _ => ClassifyUnit(upper)
  }

  /** INTERVAL_UNITS: months and years are the documented 30 and 365 day approximations. */
  function ClassifyUnit(upper: string): Word {
    if upper == "SECOND" || upper == "SECONDS" then Unit(1)
    else if upper == "MINUTE" || upper == "MINUTES" then Unit(60)
    else if upper == "HOUR" || upper == "HOURS" then Unit(3600)
    else if upper == "DAY" || upper == "DAYS" then Unit(86400)
    else if upper == "WEEK" || upper == "WEEKS" then Unit(604800)
    else if upper == "MONTH" || upper == "MONTHS" then Unit(2592000)
    else if upper == "YEAR" || upper == "YEARS" then Unit(31536000)
    else Plain
  }

  function MarkOf(value: string): Mark {
    if value == "(" then LParen
    else if value == ")" then RParen
    else if value == "," then Comma
    else NoMark
  }

  /** Identifiers match keywords case-insensitively; every other kind keeps its value as it is. */
  function MakeToken(kind: Kind, value: string): (t: Token)
    requires kind.StrTok? || kind.IdentTok? || kind.PunctTok?
    ensures t.kind == kind && t.value == value
  {
    if MarkOf(value).NoMark? then
      RawToken(kind, value, NoMark, Classify(if kind.IdentTok? then ToUpper(value) else value))
    else RawToken(kind, value, MarkOf(value), Plain)
  }

  function NumToken(value: string): Token {
    RawToken(NumTok, value, NoMark, Plain)
  }

  function OpToken(op: BinOp): Token {
    RawToken(OpTok(op), op.Spelling(), NoMark, Plain)
  }
}

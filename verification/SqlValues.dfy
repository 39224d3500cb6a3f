/** What the literals of a query are worth once they are read. */
module SqlValues {
  import opened Basics
  import opened SqlNumbers
  import opened SqlTokens
  import opened SqlSyntax

  lemma ProductValue(m: int, n: nat, p: real, r: real)
    requires p > 0.0 && m as real / p == r
    ensures (m * n) as real / p == n as real * r
  {
    assert m as real == r * p;
    assert (m * n) as real == m as real * n as real;
    assert (m * n) as real == (n as real * r) * p;
  }

  lemma TimesValue(d: Decimal, n: nat, worth: real)
    requires DecimalValue(d) == worth
    ensures DecimalValue(Times(d, n)) == n as real * worth
  {
    NormalizeValue(d.mantissa * n, d.scale);
    ProductValue(d.mantissa, n, Pow10(d.scale), worth);
  }

  /** The number a text of digits spells. */
  function Worth(sign: string, a: string, point: bool, b: string): real
    requires Digits(a, point, b)
  {
    var size := DigitsVal(a + b) as real / Pow10(|b|);
    if sign == "-" then -size else size
  }

  /** A number literal is read as the number its digits spell, zeros after the point included. */
  lemma NumberWorth(a: string, point: bool, b: string, rest: seq<Token>)
    requires Digits(a, point, b)
    ensures var r := ParsePrimary([NumToken(Spelled(a, point, b))] + rest);
            r.Ok? && r.rest == rest && r.node.Num? && DecimalValue(r.node.value) == Worth("", a, point, b)
  {
    LiteralValue("", a, point, b);
    assert "" + Spelled(a, point, b) == Spelled(a, point, b);
    assert ([NumToken(Spelled(a, point, b))] + rest)[1..] == rest;
  }

  /** The words for a unit, in any case, with the seconds it has. */
  predicate UnitIs(word: string, seconds: nat) {
    var w := ToUpper(word);
    || (seconds == 1 && (w == "SECOND" || w == "SECONDS"))
    || (seconds == 60 && (w == "MINUTE" || w == "MINUTES"))
    || (seconds == 60 * 60 && (w == "HOUR" || w == "HOURS"))
    || (seconds == 24 * 60 * 60 && (w == "DAY" || w == "DAYS"))
    || (seconds == 7 * 24 * 60 * 60 && (w == "WEEK" || w == "WEEKS"))
    || (seconds == 30 * 24 * 60 * 60 && (w == "MONTH" || w == "MONTHS"))
    || (seconds == 365 * 24 * 60 * 60 && (w == "YEAR" || w == "YEARS"))
  }

  /** Which words are units, and of how many seconds. */
  lemma UnitWord(word: string, seconds: nat)
    ensures UnitIs(word, seconds) <==> MakeToken(IdentTok, word).upper == Unit(seconds)
  {
    assert |ToUpper(word)| == |word|;
  }

  lemma IntervalReads(amount: Token, d: Decimal, unit: Token, seconds: nat, rest: seq<Token>)
    requires JsNumber(amount.value) == Some(d) && unit.upper == Unit(seconds)
    ensures ParseInterval([amount, unit] + rest) == Ok(Interval(Times(d, seconds)), rest)
  {
    assert ([amount, unit] + rest)[2..] == rest;
  }

  lemma AmountReads(text: string, sign: string, a: string, point: bool, b: string) returns (d: Decimal)
    requires IsSign(sign) && Digits(a, point, b) && text == sign + Spelled(a, point, b)
    ensures JsNumber(text) == Some(d) && DecimalValue(d) == Worth(sign, a, point, b)
  {
    LiteralValue(sign, a, point, b);
    d := JsNumber(text).value;
  }

  /** An interval is its amount times the seconds of its unit, whatever kinds of token the two are. */
  lemma IntervalWorth(sign: string, a: string, point: bool, b: string, worth: real,
                      amount: Token, unit: Token, seconds: nat, rest: seq<Token>) returns (total: Decimal)
    requires IsSign(sign) && Digits(a, point, b) && amount.value == sign + Spelled(a, point, b)
    requires Worth(sign, a, point, b) == worth && unit.upper == Unit(seconds)
    ensures ParseInterval([amount, unit] + rest) == Ok(Interval(total), rest)
    ensures DecimalValue(total) == seconds as real * worth
  {
    var d := AmountReads(amount.value, sign, a, point, b);
    total := Times(d, seconds);
    TimesValue(d, seconds, worth);
    IntervalReads(amount, d, unit, seconds, rest);
  }
}

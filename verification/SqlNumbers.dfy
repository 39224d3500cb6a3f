/** Exact decimal literals: the part of JavaScript's `Number(text)` and `String(value)` the compiler relies on. */
module SqlNumbers {
  import opened Basics

  /** mantissa / 10^scale, normal when no trailing zero is carried after the point. */
  datatype Decimal = Decimal(mantissa: int, scale: nat) {

    predicate Normal() {
      scale == 0 || mantissa % 10 != 0
    }
  }

  function Pow10(k: nat): (p: real)
    ensures p > 0.0
  {
    if k == 0 then 1.0 else 10.0 * Pow10(k - 1)
  }

  function DecimalValue(d: Decimal): real {
    d.mantissa as real / Pow10(d.scale)
  }

  predicate IsDigit(c: char) {
    '0' <= c <= '9'
  }

  predicate AllDigits(s: string) {
    forall i :: 0 <= i < |s| ==> IsDigit(s[i])
  }

  function DigitsVal(s: string): (v: nat)
    requires AllDigits(s)
  {
    if s == "" then 0 else 10 * DigitsVal(s[..|s| - 1]) + (s[|s| - 1] - '0') as nat
  }

  /** Length of the leading run of digits. */
  function DigitRun(s: string): (k: nat)
    ensures k <= |s| && AllDigits(s[..k])
    ensures k < |s| ==> !IsDigit(s[k])
  {
    if s == "" || !IsDigit(s[0]) then 0
    else
      var k := 1 + DigitRun(s[1..]);
      assert s[..k] == [s[0]] + s[1..][..k - 1];
      k
  }

  function Normalize(m: int, scale: nat): (d: Decimal)
    ensures d.Normal() && (m >= 0 ==> d.mantissa >= 0)
    decreases scale
  {
    if scale > 0 && m % 10 == 0 then Normalize(m / 10, scale - 1) else Decimal(m, scale)
  }

  function Unsigned(s: string): (d: Option<Decimal>)
    ensures d.Some? ==> d.value.Normal() && d.value.mantissa >= 0
  {
    var k := DigitRun(s);
    if k == |s| then
      if k == 0 then None else Some(Decimal(DigitsVal(s[..k]), 0))
    else if s[k] == '.' && AllDigits(s[k + 1..]) && |s| > 1 then
      Some(Normalize(DigitsVal(s[..k] + s[k + 1..]), |s| - k - 1))
    else None
  }

  /** `Number(text)` on plain decimal text: blank text is 0, anything else unreadable is NaN. */
  function JsNumber(text: string): Option<Decimal> {
    var s := Trim(text);
    if s == "" then Some(Decimal(0, 0))
    else if s[0] == '-' then
      var d := Unsigned(s[1..]);
      if d.Some? then Some(Decimal(-d.value.mantissa, d.value.scale)) else None
    else if s[0] == '+' then Unsigned(s[1..])
    else Unsigned(s)
  }

  function DigitChar(d: nat): (c: char)
    requires d < 10
    ensures IsDigit(c) && (c - '0') as nat == d
  {
    '0' + d as char
  }

  function NatText(n: nat): (s: string)
    ensures |s| > 0 && AllDigits(s) && DigitsVal(s) == n
  {
    if n < 10 then
      var s := [DigitChar(n)];
      assert s[..0] == "";
      s
    else
      var s := NatText(n / 10) + [DigitChar(n % 10)];
      assert s[..|s| - 1] == NatText(n / 10);
      s
  }

  function Zeros(k: nat): (s: string)
    ensures |s| == k && AllDigits(s)
  {
    seq(k, _ => '0')
  }

  lemma {:induction false} LeadingZeros(k: nat, digits: string)
    requires AllDigits(digits)
    ensures AllDigits(Zeros(k) + digits) && DigitsVal(Zeros(k) + digits) == DigitsVal(digits)
  {
    var s := Zeros(k) + digits;
    if digits != "" {
      assert s[..|s| - 1] == Zeros(k) + digits[..|digits| - 1];
      LeadingZeros(k, digits[..|digits| - 1]);
    } else if k > 0 {
      assert s[..|s| - 1] == Zeros(k - 1) + digits;
      LeadingZeros(k - 1, digits);
    }
  }

  lemma {:induction false} DigitRunOf(a: string, rest: string)
    requires AllDigits(a) && (rest == "" || !IsDigit(rest[0]))
    ensures DigitRun(a + rest) == |a|
  {
    if a != "" {
      assert (a + rest)[1..] == a[1..] + rest;
      DigitRunOf(a[1..], rest);
    } else {
      assert a + rest == rest;
    }
  }

  /** The digits on both sides of the point, padded so that at least one stands before it. */
  function Padded(d: Decimal): (s: string)
    requires d.mantissa >= 0
    ensures |s| > d.scale && AllDigits(s) && DigitsVal(s) == d.mantissa
  {
    var digits := NatText(d.mantissa);
    LeadingZeros(Max(0, d.scale + 1 - |digits|), digits);
    Zeros(Max(0, d.scale + 1 - |digits|)) + digits
  }

  /** Digits with a point set `scale` places from the right. */
  function Pointed(s: string, scale: nat): (t: string)
    requires |s| > scale && AllDigits(s)
    ensures |t| > 0 && IsDigit(t[0]) && IsDigit(t[|t| - 1])
  {
    if scale == 0 then s else s[..|s| - scale] + ("." + s[|s| - scale..])
  }

  /** `String(value)` of a non-negative decimal, in positional notation. */
  function DecimalText(d: Decimal): (s: string)
    requires d.mantissa >= 0
    ensures |s| > 0 && IsDigit(s[0]) && IsDigit(s[|s| - 1])
  {
    Pointed(Padded(d), d.scale)
  }

  /** The digits before and after the point of a text with one. */
  lemma PointedParts(a: string, b: string)
    ensures var t := a + ("." + b); t[..|a|] == a && t[|a|] == '.' && t[|a| + 1..] == b
  {
  }

  lemma PointedReads(a: string, b: string)
    requires a != "" && b != "" && AllDigits(a) && AllDigits(b) && AllDigits(a + b) && DigitsVal(a + b) % 10 != 0
    ensures Unsigned(a + ("." + b)) == Some(Decimal(DigitsVal(a + b), |b|))
  {
    DigitRunOf(a, "." + b);
    PointedParts(a, b);
  }

  lemma PointedRoundTrip(s: string, scale: nat)
    requires |s| > scale && AllDigits(s) && (scale == 0 || DigitsVal(s) % 10 != 0)
    ensures Unsigned(Pointed(s, scale)) == Some(Decimal(DigitsVal(s), scale))
  {
    if scale == 0 {
      DigitRunOf(s, "");
      assert s + "" == s && s[..|s|] == s;
    } else {
      var a, b := s[..|s| - scale], s[|s| - scale..];
      assert a + b == s;
      PointedReads(a, b);
    }
  }

  /** Printing a normal non-negative decimal and reading it back is the identity. */
  lemma DecimalRoundTrip(d: Decimal)
    requires d.Normal() && d.mantissa >= 0
    ensures Unsigned(DecimalText(d)) == Some(d) && JsNumber(DecimalText(d)) == Some(d)
  {
    PointedRoundTrip(Padded(d), d.scale);
    UnsignedIsNumber(DecimalText(d));
  }

  lemma Trimmed(s: string)
    requires |s| > 0 && !IsWhite(s[0]) && !IsWhite(s[|s| - 1])
    ensures Trim(s) == s
  {
  }

  lemma UnsignedIsNumber(s: string)
    requires |s| > 0 && IsDigit(s[0]) && IsDigit(s[|s| - 1])
    ensures JsNumber(s) == Unsigned(s)
  {
    Trimmed(s);
  }

  /** A signed decimal as the text of an INTERVAL amount. */
  function SignedText(d: Decimal): string {
    if d.mantissa < 0 then "-" + DecimalText(Minus(d)) else DecimalText(d)
  }

  lemma SignedRoundTrip(d: Decimal)
    requires d.Normal()
    ensures JsNumber(SignedText(d)) == Some(d)
  {
    if d.mantissa < 0 {
      NegatedMod(d.mantissa);
      DecimalRoundTrip(Minus(d));
      MinusNumber(DecimalText(Minus(d)), Minus(d));
    } else {
      DecimalRoundTrip(d);
    }
  }

  lemma MinusNumber(s: string, d: Decimal)
    requires s != "" && IsDigit(s[0]) && IsDigit(s[|s| - 1]) && Unsigned(s) == Some(d)
    ensures JsNumber("-" + s) == Some(Minus(d))
  {
    SignedNumber("-", s);
  }

  lemma NegatedMod(m: int)
    ensures m % 10 == 0 <==> (-m) % 10 == 0
  {
  }

  predicate IsSign(sign: string) {
    sign == "" || sign == "+" || sign == "-"
  }

  function Minus(d: Decimal): Decimal {
    Decimal(-d.mantissa, d.scale)
  }

  lemma MinusValue(d: Decimal)
    ensures DecimalValue(Minus(d)) == -DecimalValue(d)
  {
  }

  /** A sign in front of text that has none. */
  lemma SignedNumber(sign: string, s: string)
    requires IsSign(sign) && s != "" && s[0] != '+' && s[0] != '-' && !IsWhite(s[0]) && !IsWhite(s[|s| - 1])
    ensures var d := Unsigned(s);
            JsNumber(sign + s) == if sign == "-" && d.Some? then Some(Minus(d.value)) else d
  {
    Trimmed(sign + s);
    if sign == "" {
      assert sign + s == s;
    } else {
      assert (sign + s)[1..] == s;
    }
  }

  // ---- What a literal is worth ----

  lemma TenTimes(q: real, p: real)
    requires p > 0.0
    ensures (10.0 * q) / (10.0 * p) == q / p
  {
    var r := q / p;
    assert q == r * p;
    assert 10.0 * q == r * (10.0 * p);
  }

  /** Dropping zeros after the point does not change the value. */
  lemma {:induction false} NormalizeValue(m: int, scale: nat)
    ensures DecimalValue(Normalize(m, scale)) == m as real / Pow10(scale)
    decreases scale
  {
    if scale > 0 && m % 10 == 0 {
      NormalizeValue(m / 10, scale - 1);
      TenTimes((m / 10) as real, Pow10(scale - 1));
      assert m as real == 10.0 * (m / 10) as real;
    }
  }

  /** A text of digits, with a point somewhere among them if there is one. */
  function Spelled(a: string, point: bool, b: string): string {
    if point then a + ("." + b) else a
  }

  /** Digits before the point, digits after it, and at least one of them. */
  predicate Digits(a: string, point: bool, b: string) {
    AllDigits(a) && AllDigits(b) && AllDigits(a + b) && a + b != "" && (!point ==> b == "")
  }

  lemma SpelledValue(a: string, point: bool, b: string)
    requires Digits(a, point, b)
    ensures var d := Unsigned(Spelled(a, point, b));
            d.Some? && DecimalValue(d.value) == DigitsVal(a + b) as real / Pow10(|b|)
  {
    if point {
      DigitRunOf(a, "." + b);
      PointedParts(a, b);
      NormalizeValue(DigitsVal(a + b), |b|);
    } else {
      DigitRunOf(a, "");
      assert a + "" == a && a[..|a|] == a;
    }
  }

  /** Every number literal is worth what its digits say, whatever zeros it carries. */
  lemma LiteralValue(sign: string, a: string, point: bool, b: string)
    requires IsSign(sign) && Digits(a, point, b)
    ensures var d := JsNumber(sign + Spelled(a, point, b));
            var size := DigitsVal(a + b) as real / Pow10(|b|);
            d.Some? && DecimalValue(d.value) == if sign == "-" then -size else size
  {
    SpelledValue(a, point, b);
    SpelledIsBlack(a, point, b);
    SignedNumber(sign, Spelled(a, point, b));
    MinusValue(Unsigned(Spelled(a, point, b)).value);
  }

  lemma SpelledIsBlack(a: string, point: bool, b: string)
    requires Digits(a, point, b)
    ensures var s := Spelled(a, point, b);
            && s != "" && s[0] != '+' && s[0] != '-' && !IsWhite(s[0]) && !IsWhite(s[|s| - 1])
  {
  }

  lemma UnsignedParts(s: string) returns (a: string, point: bool, b: string)
    requires Unsigned(s).Some?
    ensures Digits(a, point, b) && s == Spelled(a, point, b)
  {
    var k := DigitRun(s);
    a, point, b := s[..k], k < |s|, if k < |s| then s[k + 1..] else "";
    assert k < |s| ==> s == a + ("." + b);
  }

  /** And nothing else is a number, save blank text, which is 0. */
  lemma NumberParts(text: string) returns (sign: string, a: string, point: bool, b: string)
    requires JsNumber(text).Some? && Trim(text) != ""
    ensures IsSign(sign) && Digits(a, point, b) && Trim(text) == sign + Spelled(a, point, b)
  {
    var s := Trim(text);
    if s[0] == '-' || s[0] == '+' {
      sign := [s[0]];
      a, point, b := UnsignedParts(s[1..]);
      assert s == sign + s[1..];
    } else {
      sign := "";
      a, point, b := UnsignedParts(s);
      assert s == sign + s;
    }
  }
}

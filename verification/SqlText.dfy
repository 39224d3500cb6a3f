/** The text of emitted expressions, and how the tokenizer reads it. */
module SqlText {
  import opened Basics
  import opened SqlNumbers
  import opened SqlTokens
  import opened SqlLexer
  import opened SqlSyntax
  import opened SqlGrammar
  import opened SqlParserComplete
  import opened SqlPrinter
  import opened SqlEmit

  /** Every single quote doubled. */
  function Doubled(s: string): string {
    if s == "" then "" else (if s[0] == '\'' then "''" else [s[0]]) + Doubled(s[1..])
  }

  function QuoteStr(s: string): string {
    "'" + (Doubled(s) + "'")
  }

  function Escaped(s: string): string {
    if s == "" then "" else (if s[0] == '"' || s[0] == '\\' then ['\\', s[0]] else [s[0]]) + Escaped(s[1..])
  }

  /** JSON.stringify of a name without control characters. */
  function JsonText(s: string): string {
    "\"" + (Escaped(s) + "\"")
  }

  // ---- Reading single tokens back ----

  /** Text before which every token of the emitter ends. */
  predicate Boundary(rest: string) {
    rest == "" || rest[0] == ' ' || rest[0] == ')' || rest[0] == ','
  }

  /** Reading `text` in front of `rest` yields `toks` and then whatever `rest` yields. */
  ghost predicate Reads(text: string, toks: seq<Token>, rest: string) {
    Lex(text + rest) == Push(toks, Lex(rest))
  }

  lemma PushCat(a: seq<Token>, b: seq<Token>, r: Result<seq<Token>, string>)
    ensures Push(a, Push(b, r)) == Push(a + b, r)
  {
    if r.Success? {
      assert a + (b + r.value) == (a + b) + r.value;
    }
  }

  lemma ReadsBoth(a: string, ta: seq<Token>, b: string, tb: seq<Token>, rest: string)
    requires Reads(a, ta, b + rest) && Reads(b, tb, rest)
    ensures Reads(a + b, ta + tb, rest)
  {
    assert (a + b) + rest == a + (b + rest);
    PushCat(ta, tb, Lex(rest));
  }

  lemma ReadsStep(text: string, tok: Token, rest: string)
    requires text != "" && LexStep(text + rest) == Take(tok, rest)
    ensures Reads(text, [tok], rest)
  {
  }

  lemma ReadsSpace(rest: string)
    ensures Reads(" ", [], rest)
  {
    assert (" " + rest)[1..] == rest;
    PushNothing(Lex(rest));
  }

  lemma ReadsPunct(c: char, rest: string)
    requires c == '(' || c == ')' || c == ','
    ensures Reads([c], [MakeToken(PunctTok, [c])], rest)
  {
  }

  predicate Wordy(w: string) {
    w != "" && IsIdentStart(w[0]) && forall i :: 0 <= i < |w| ==> IsIdentPart(w[i])
  }

  lemma ReadsWord(w: string, rest: string)
    requires Wordy(w) && Boundary(rest)
    ensures Reads(w, [MakeToken(IdentTok, w)], rest)
  {
    WordEnds(w, rest);
    ReadsStep(w, MakeToken(IdentTok, w), rest);
  }

  lemma PointedRun(s: string, scale: nat, rest: string)
    requires |s| > scale && AllDigits(s) && Boundary(rest)
    ensures NumberRun(Pointed(s, scale) + rest, false) == |Pointed(s, scale)|
  {
    if scale == 0 {
      DigitsRun(s, rest, false);
    } else {
      var a, b := s[..|s| - scale], s[|s| - scale..];
      PointRun(a, b, rest);
      assert Pointed(s, scale) + rest == a + ("." + (b + rest));
    }
  }

  /** A number is one token, behind a minus sign if it is negative. */
  function NumberToks(d: Decimal): seq<Token> {
    if d.mantissa < 0 then [OpToken(Sub), NumToken(DecimalText(Decimal(-d.mantissa, d.scale)))]
    else [NumToken(DecimalText(d))]
  }

  lemma ReadsNumber(d: Decimal, rest: string)
    requires Boundary(rest)
    ensures Reads(SignedText(d), NumberToks(d), rest)
  {
    if d.mantissa < 0 {
      var u := Decimal(-d.mantissa, d.scale);
      ReadsDecimal(u, rest);
      ReadsNegated(DecimalText(u), rest);
    } else {
      ReadsDecimal(d, rest);
    }
  }

  lemma ReadsDecimal(d: Decimal, rest: string)
    requires d.mantissa >= 0 && Boundary(rest)
    ensures Reads(DecimalText(d), [NumToken(DecimalText(d))], rest)
  {
    PointedRun(Padded(d), d.scale, rest);
    ReadsNumberText(DecimalText(d), rest);
  }

  lemma ReadsNegated(s: string, rest: string)
    requires s != "" && IsDigit(s[0]) && Reads(s, [NumToken(s)], rest)
    ensures Reads("-" + s, [OpToken(Sub), NumToken(s)], rest)
  {
    ReadsMinus(s + rest);
    ReadsBoth("-", [OpToken(Sub)], s, [NumToken(s)], rest);
    assert [OpToken(Sub)] + [NumToken(s)] == [OpToken(Sub), NumToken(s)];
  }

  lemma ReadsNumberText(s: string, rest: string)
    requires s != "" && IsDigit(s[0]) && NumberRun(s + rest, false) == |s|
    ensures Reads(s, [NumToken(s)], rest)
  {
  }

  /** Doubling the quotes is undone by the string reader, for every string. */
  lemma {:induction false} QuoteUndone(s: string, rest: string)
    requires rest == "" || rest[0] != '\''
    ensures StrBody(Doubled(s) + ("'" + rest)) == Body(s, rest)
  {
    var end := "'" + rest;
    if s == "" {
      assert Doubled(s) + end == end && end[1..] == rest;
    } else {
      QuoteUndone(s[1..], rest);
      assert s == [s[0]] + s[1..];
      if s[0] == '\'' {
        ReadsDoubled(Doubled(s[1..]) + end);
        assert Doubled(s) + end == "''" + (Doubled(s[1..]) + end);
      } else {
        ReadsOrdinary(s[0], Doubled(s[1..]) + end);
        assert Doubled(s) + end == [s[0]] + (Doubled(s[1..]) + end);
      }
    }
  }

  /** A string that is not closed runs to the end. */
  lemma {:induction false} OpenQuote(s: string)
    ensures StrBody(Doubled(s)) == Body(s, "")
  {
    if s != "" {
      OpenQuote(s[1..]);
      if s[0] == '\'' {
        ReadsDoubled(Doubled(s[1..]));
      } else {
        ReadsOrdinary(s[0], Doubled(s[1..]));
      }
      assert s == [s[0]] + s[1..];
    }
  }

  lemma ReadsDoubled(rest: string)
    ensures StrBody("''" + rest) == Body("'" + StrBody(rest).value, StrBody(rest).rest)
  {
  }

  lemma ReadsOrdinary(c: char, rest: string)
    requires c != '\''
    ensures StrBody([c] + rest) == Body([c] + StrBody(rest).value, StrBody(rest).rest)
  {
  }

  lemma ReadsString(s: string, rest: string)
    requires Boundary(rest)
    ensures Reads(QuoteStr(s), [MakeToken(StrTok, s)], rest)
  {
    QuoteUndone(s, rest);
    StringStep(Doubled(s) + ("'" + rest), s, rest);
    assert QuoteStr(s) + rest == "'" + (Doubled(s) + ("'" + rest));
    ReadsStep(QuoteStr(s), MakeToken(StrTok, s), rest);
  }

  lemma StringStep(text: string, s: string, rest: string)
    requires StrBody(text) == Body(s, rest)
    ensures LexStep("'" + text) == Take(MakeToken(StrTok, s), rest)
  {
    assert ("'" + text)[1..] == text;
  }

  predicate SimpleName(s: string) {
    forall i :: 0 <= i < |s| ==> s[i] != '"' && s[i] != '\\'
  }

  lemma {:induction false} NameUndone(s: string, rest: string)
    requires SimpleName(s)
    ensures NameBody(Escaped(s) + ("\"" + rest), '"') == Body(s, rest)
  {
    EscapedSize(s);
    ReadsQuoteless(s, rest);
  }

  lemma {:induction false} ReadsQuoteless(w: string, rest: string)
    requires '"' !in w
    ensures NameBody(w + ("\"" + rest), '"') == Body(w, rest)
  {
    var text := w + ("\"" + rest);
    if w == "" {
      assert text == "\"" + rest && text[1..] == rest;
    } else {
      ReadsQuoteless(w[1..], rest);
      assert text[1..] == w[1..] + ("\"" + rest);
      assert w == [w[0]] + w[1..];
    }
  }

  lemma {:induction false} EscapedSize(s: string)
    ensures if SimpleName(s) then Escaped(s) == s else |Escaped(s)| > |s|
    ensures '"' !in s ==> '"' !in Escaped(s)
  {
    if s != "" {
      EscapedSize(s[1..]);
      assert s == [s[0]] + s[1..];
      assert SimpleName(s) <==> s[0] != '"' && s[0] != '\\' && SimpleName(s[1..]);
    }
  }

  lemma {:induction false} BodyHasNoQuote(text: string, quote: char)
    ensures quote !in NameBody(text, quote).value
  {
    if text != "" && text[0] != quote {
      BodyHasNoQuote(text[1..], quote);
    }
  }

  /** There is no escape in a name: reading back what JSON.stringify wrote gives the name exactly when it holds
      neither a quote nor a backslash. */
  lemma NameUndoneIff(s: string, rest: string)
    ensures NameBody(Escaped(s) + ("\"" + rest), '"') == Body(s, rest) <==> SimpleName(s)
  {
    EscapedSize(s);
    if SimpleName(s) {
      NameUndone(s, rest);
    } else if '"' in s {
      BodyHasNoQuote(Escaped(s) + ("\"" + rest), '"');
    } else {
      ReadsQuoteless(Escaped(s), rest);
    }
  }

  lemma ReadsAlias(s: string, rest: string)
    requires SimpleName(s)
    ensures Reads(JsonText(s), [MakeToken(IdentTok, s)], rest)
  {
    NameUndone(s, rest);
    QuotedStep(Escaped(s), s, rest);
    ReadsStep(JsonText(s), MakeToken(IdentTok, s), rest);
  }

  lemma QuotedStep(w: string, s: string, rest: string)
    requires NameBody(w + ("\"" + rest), '"') == Body(s, rest)
    ensures LexStep(("\"" + (w + "\"")) + rest) == Take(MakeToken(IdentTok, s), rest)
  {
    var text := ("\"" + (w + "\"")) + rest;
    assert text[1..] == w + ("\"" + rest);
  }

  lemma ReadsOp(op: BinOp, rest: string)
    requires !op.Div? && !op.And? && !op.Or? && rest != "" && rest[0] == ' '
    ensures Reads(op.Spelling(), [OpToken(op)], rest)
  {
    OperatorRead(op, rest);
    ReadsStep(op.Spelling(), OpToken(op), rest);
  }

  lemma ReadsStar(rest: string)
    ensures Reads("*", [OpToken(Mul)], rest)
  {
  }

  /** A minus sign is a token of its own when no second one follows. */
  lemma ReadsMinus(rest: string)
    requires rest != "" && rest[0] != '-'
    ensures Reads("-", [OpToken(Sub)], rest)
  {
  }

  // ---- Text as a tree of pieces ----

  datatype Piece = Space | Punct(c: char) | Keyword(kw: Word) | Name(name: string) | Number(d: Decimal)
                 | Quoted(text: string) | Alias(alias: string) | Infix(op: BinOp) | Minus | Asterisk
                 | Raw(sqlite: string)

  datatype Layout = Blank | Leaf(p: Piece) | Cat(left: Layout, right: Layout)

  /** The pieces the query tokenizer reads as one token; a raw piece is SQLite's own syntax. */
  predicate PieceOk(p: Piece) {
    match p
    case Punct(c) => c == '(' || c == ')' || c == ','
    case Keyword(w) => !w.Unit? && !w.Plain?
    case Name(n) => Wordy(n)
    case Alias(name) => SimpleName(name)
    case Infix(op) => !op.Div? && !op.And? && !op.Or?
    case Raw(_) => false
    case _ => true
  }

  function PieceText(p: Piece): string {
    match p
    case Space => " "
    case Punct(c) => [c]
    case Keyword(w) => KwSpelling(w)
    case Name(n) => n
    case Number(d) => SignedText(d)
    case Quoted(s) => QuoteStr(s)
    case Alias(s) => JsonText(s)
    case Infix(op) => op.Spelling()
    case Minus => "-"
    case Asterisk => "*"
    case Raw(s) => s
  }

  function PunctToken(c: char): Token {
    if c == '(' then OPEN else if c == ')' then CLOSE else COMMA
  }

  /** The keywords are read as the printer's tokens. */
  lemma KeywordToken(w: Word)
    requires !w.Unit? && !w.Plain?
    ensures MakeToken(IdentTok, KwSpelling(w)) == KwToken(w) && Wordy(KwSpelling(w))
  {
    assert ToUpper(KwSpelling(w)) == KwSpelling(w);
  }

  function PieceToks(p: Piece): seq<Token> {
    match p
    case Punct(c) => [PunctToken(c)]
    case Keyword(w) => [KwToken(w)]
    case Name(n) => [MakeToken(IdentTok, n)]
    case Number(d) => NumberToks(d)
    case Quoted(s) => [MakeToken(StrTok, s)]
    case Alias(s) => [MakeToken(IdentTok, s)]
    case Infix(op) => [OpToken(op)]
    case Minus => [OpToken(Sub)]
    case Asterisk => [OpToken(Mul)]
    case _ => []
  }

  /** What must follow a piece for it to be read as it stands. */
  predicate EndsBefore(p: Piece, rest: string) {
    match p
    case Keyword(_) | Name(_) | Number(_) | Quoted(_) => Boundary(rest)
    case Infix(_) => rest != "" && rest[0] == ' '
    case Minus => rest != "" && rest[0] != '-'
    case _ => true
  }

  lemma ReadsPiece(p: Piece, rest: string)
    requires PieceOk(p) && EndsBefore(p, rest)
    ensures Reads(PieceText(p), PieceToks(p), rest)
  {
    match p
    case Space => ReadsSpace(rest);
    case Punct(c) => ReadsPunct(c, rest);
    case Keyword(w) =>
      KeywordToken(w);
      ReadsWord(KwSpelling(w), rest);
    case Name(n) => ReadsWord(n, rest);
    case Number(d) => ReadsNumber(d, rest);
    case Quoted(s) => ReadsString(s, rest);
    case Alias(s) => ReadsAlias(s, rest);
    case Infix(op) => ReadsOp(op, rest);
    case Minus => ReadsMinus(rest);
    case Asterisk => ReadsStar(rest);
  }

  function Text(l: Layout): string {
    match l
    case Blank => ""
    case Leaf(p) => PieceText(p)
    case Cat(a, b) => Text(a) + Text(b)
  }

  function LayoutToks(l: Layout): seq<Token> {
    match l
    case Blank => []
    case Leaf(p) => PieceToks(p)
    case Cat(a, b) => LayoutToks(a) + LayoutToks(b)
  }

  /** Every piece is readable and ends before the text that follows it. */
  predicate Fine(l: Layout, rest: string) {
    match l
    case Blank => true
    case Leaf(p) => PieceOk(p) && EndsBefore(p, rest)
    case Cat(a, b) => Fine(a, Text(b) + rest) && Fine(b, rest)
  }

  lemma {:induction false} ReadsLayout(l: Layout, rest: string)
    requires Fine(l, rest)
    ensures Reads(Text(l), LayoutToks(l), rest)
  {
    match l
    case Blank =>
      assert "" + rest == rest;
      PushNothing(Lex(rest));
    case Leaf(p) => ReadsPiece(p, rest);
    case Cat(a, b) =>
      ReadsLayout(a, Text(b) + rest);
      ReadsLayout(b, rest);
      ReadsBoth(Text(a), LayoutToks(a), Text(b), LayoutToks(b), rest);
  }

  // ---- The text of SQLite expressions ----

  function Paren(l: Layout): Layout {
    Cat(Leaf(Punct('(')), Cat(l, Leaf(Punct(')'))))
  }

  function Infixed(a: Layout, p: Piece, b: Layout): Layout {
    Cat(a, Cat(Cat(Leaf(Space), Cat(Leaf(p), Leaf(Space))), b))
  }

  function Around(before: string, l: Layout, after: string): Layout {
    Cat(Leaf(Raw(before)), Cat(l, Leaf(Raw(after))))
  }

  function OpPiece(op: BinOp): Piece {
    if op.And? then Keyword(AND) else if op.Or? then Keyword(OR) else Infix(op)
  }

  function Negated(l: Layout, negate: bool): Layout {
    if negate then Cat(l, Cat(Leaf(Space), Leaf(Keyword(NOT)))) else l
  }

  function NullWord(negate: bool): Layout {
    if negate then Cat(Leaf(Keyword(NOT)), Cat(Leaf(Space), Leaf(Keyword(NULL)))) else Leaf(Keyword(NULL))
  }

  function ModifierText(m: Modifier): string {
    match m
    case DayStart => "'start of day'"
    case AddDays(n) => (if n < 0 then "'-" + NatText(-n) else "'+" + NatText(n)) + " days'"
    case ToWeekday(w) => "'weekday " + NatText(w) + "'"
  }

  function ModifierTexts(modifiers: seq<Modifier>): string {
    if modifiers == [] then "" else ", " + (ModifierText(modifiers[0]) + ModifierTexts(modifiers[1..]))
  }

  function LayoutOf(q: Sq): Layout
    decreases q, 0
  {
    match q
    case QNum(d) => Leaf(Number(d))
    case QText(s) => Leaf(Quoted(s))
    case QStar => Leaf(Asterisk)
    case QCol(name) => Leaf(Name(name))
    case QAlias(name) => Leaf(Alias(name))
    case QSeconds => Leaf(Raw("(timestamp / 1000.0)"))
    case QNeg(x) => Paren(Cat(Leaf(Minus), LayoutOf(x)))
    case QNot(x) => Paren(Cat(Leaf(Keyword(NOT)), Cat(Leaf(Space), LayoutOf(x))))
    case QBin(op, l, r) => Paren(Infixed(LayoutOf(l), OpPiece(op), LayoutOf(r)))
    case QRealDiv(l, r) => Paren(Cat(LayoutOf(l), Cat(Leaf(Raw(" * 1.0 / ")), LayoutOf(r))))
    case QIn(x, list, negate) => Paren(Infixed(Negated(LayoutOf(x), negate), Keyword(IN), Paren(LayoutList(list))))
    case QLike(x, p, negate) => Paren(Infixed(Negated(LayoutOf(x), negate), Keyword(LIKE), LayoutOf(p)))
    case QBetween(x, low, high, negate) =>
      Paren(Infixed(Negated(LayoutOf(x), negate), Keyword(BETWEEN),
          Infixed(LayoutOf(low), Keyword(AND), LayoutOf(high))))
    case QIsNull(x, negate) => Paren(Infixed(LayoutOf(x), Keyword(IS), NullWord(negate)))
    case QCast(x, to) => Around("CAST(", LayoutOf(x), if to.AsInteger? then " AS INTEGER)" else " AS REAL)")
    case QWrap(x) => Paren(LayoutOf(x))
    case QCase(c, a, b) =>
      Cat(Around("(CASE WHEN ", LayoutOf(c), " THEN "), Cat(LayoutOf(a), Around(" ELSE ", LayoutOf(b), " END)")))
    case QTruncate(x, modifiers) =>
      Around("CAST(strftime('%s', CAST(", LayoutOf(x),
             " AS INTEGER), 'unixepoch'" + ModifierTexts(modifiers) + ") AS INTEGER)")
    case QAbs(x) => Around("ABS(", LayoutOf(x), ")")
  }

  function LayoutList(list: seq<Sq>): Layout
    decreases list, 2
  {
    if list == [] then Blank else Cat(LayoutOf(list[0]), LayoutTail(list[1..]))
  }

  function LayoutTail(list: seq<Sq>): Layout
    decreases list, 1
  {
    if list == [] then Blank
    else Cat(Cat(Leaf(Punct(',')), Leaf(Space)), Cat(LayoutOf(list[0]), LayoutTail(list[1..])))
  }

  function Render(q: Sq): string {
    Text(LayoutOf(q))
  }

  // ---- SQLite's own forms ----

  lemma AroundText(before: string, l: Layout, after: string)
    ensures Text(Around(before, l, after)) == before + (Text(l) + after)
  {
    assert Text(Leaf(Raw(before))) == before && Text(Leaf(Raw(after))) == after;
  }

  lemma RendersAround(q: Sq, before: string, l: Layout, after: string)
    requires LayoutOf(q) == Around(before, l, after)
    ensures Render(q) == before + (Text(l) + after)
  {
    AroundText(before, l, after);
  }

  /** The forms the query dialect does not have, spelled out as SQLite has them. */
  lemma CastText(q: Sq)
    requires q.QCast?
    ensures q.to.AsInteger? ==> Render(q) == "CAST(" + (Render(q.expr) + " AS INTEGER)")
    ensures q.to.AsReal? ==> Render(q) == "CAST(" + (Render(q.expr) + " AS REAL)")
  {
    RendersAround(q, "CAST(", LayoutOf(q.expr), if q.to.AsInteger? then " AS INTEGER)" else " AS REAL)");
  }

  lemma AbsText(q: Sq)
    requires q.QAbs?
    ensures Render(q) == "ABS(" + (Render(q.expr) + ")")
  {
    RendersAround(q, "ABS(", LayoutOf(q.expr), ")");
  }

  lemma SecondsText(q: Sq)
    requires q.QSeconds?
    ensures Render(q) == "(timestamp / 1000.0)"
  {
  }

  lemma TripleText(a: Layout, middle: string, b: Layout)
    ensures Text(Paren(Cat(a, Cat(Leaf(Raw(middle)), b)))) == "(" + ((Text(a) + (middle + Text(b))) + ")")
  {
    ParenText(Cat(a, Cat(Leaf(Raw(middle)), b)));
    assert Text(Leaf(Raw(middle))) == middle;
  }

  lemma DivisionText(q: Sq)
    requires q.QRealDiv?
    ensures Render(q) == "(" + ((Render(q.left) + (" * 1.0 / " + Render(q.right))) + ")")
  {
    TripleText(LayoutOf(q.left), " * 1.0 / ", LayoutOf(q.right));
  }

  lemma ChoiceText(c: Layout, a: Layout, b: Layout)
    ensures Text(Cat(Around("(CASE WHEN ", c, " THEN "), Cat(a, Around(" ELSE ", b, " END)")))) ==
              "(CASE WHEN " + (Text(c) + " THEN ") + (Text(a) + (" ELSE " + (Text(b) + " END)")))
  {
    AroundText("(CASE WHEN ", c, " THEN ");
    AroundText(" ELSE ", b, " END)");
  }

  lemma CaseText(q: Sq)
    requires q.QCase?
    ensures Render(q) ==
              "(CASE WHEN " + (Render(q.cond) + " THEN ") + (Render(q.then_) + (" ELSE " + (Render(q.else_) + " END)")))
  {
    ChoiceText(LayoutOf(q.cond), LayoutOf(q.then_), LayoutOf(q.else_));
  }

  lemma TruncateText(q: Sq)
    requires q.QTruncate?
    ensures Render(q) ==
              "CAST(strftime('%s', CAST("
              + (Render(q.expr) + (" AS INTEGER), 'unixepoch'" + ModifierTexts(q.modifiers) + ") AS INTEGER)"))
  {
    RendersAround(q, "CAST(strftime('%s', CAST(", LayoutOf(q.expr),
        " AS INTEGER), 'unixepoch'" + ModifierTexts(q.modifiers) + ") AS INTEGER)");
  }

  lemma MoreModifiers(m: Modifier, ms: seq<Modifier>)
    ensures ModifierTexts([m] + ms) == ", " + (ModifierText(m) + ModifierTexts(ms))
  {
    assert ([m] + ms)[1..] == ms;
  }

  /** The modifiers of a week, as SQLite reads them. */
  lemma WeekText(w: nat)
    ensures ModifierTexts([DayStart, AddDays(-6), ToWeekday(w)]) ==
              ", " + ("'start of day'" + (", " + ("'-6 days'" + (", " + ("'weekday " + NatText(w) + "'")))))
  {
    var last := [ToWeekday(w)];
    assert last == [ToWeekday(w)] + [] && [AddDays(-6)] + last == [AddDays(-6), ToWeekday(w)];
    MoreModifiers(ToWeekday(w), []);
    MoreModifiers(AddDays(-6), last);
    MoreModifiers(DayStart, [AddDays(-6)] + last);
    assert [DayStart] + ([AddDays(-6)] + last) == [DayStart, AddDays(-6), ToWeekday(w)];
    SixDays();
    var text := ModifierText(ToWeekday(w));
    assert text + "" == text;
  }

  lemma SixDays()
    ensures ModifierText(AddDays(-6)) == "'-6 days'"
  {
    assert NatText(6) == "6";
  }

  // ---- Reading expressions back ----

  predicate NegativeNumber(q: Sq) {
    q.QNum? && q.value.mantissa < 0
  }

  /** Expressions whose text is again a query expression: no division, no timestamp, no function, and no minus sign in
      front of a negative number. */
  predicate PlainSq(q: Sq) {
    match q
    case QNum(d) => d.Normal()
    case QText(_) => true
    case QStar => true
    case QCol(name) => Wordy(name) && !Reserved(name)
    case QAlias(name) => SimpleName(name) && !Reserved(name)
    case QNeg(x) => PlainSq(x) && !NegativeNumber(x)
    case QNot(x) => PlainSq(x)
    case QBin(op, l, r) => !op.Div? && PlainSq(l) && PlainSq(r)
    case QIn(x, list, _) =>
      PlainSq(x) && (forall i :: 0 <= i < |list| ==> PlainSq(list[i])) && (list != [] ==> !ReadsAsCloser(list[0]))
    case QLike(x, p, _) => PlainSq(x) && PlainSq(p)
    case QBetween(x, low, high, _) => PlainSq(x) && PlainSq(low) && PlainSq(high)
    case QIsNull(x, _) => PlainSq(x)
    case _ => false
  }

  /** The first item of a list that the parser takes for its closing parenthesis. */
  predicate ReadsAsCloser(q: Sq) {
    (q.QText? && q.text == ")") || ((q.QAlias? || q.QCol?) && q.name == ")")
  }

  /** The concrete tree of the emitted text. */
  function Concrete(q: Sq): Syn
    requires PlainSq(q)
    decreases q, 0
  {
    match q
    case QNum(d) => ConcreteNumber(d)
    case QText(s) => SStr(MakeToken(StrTok, s))
    case QCol(name) => SCol(MakeToken(IdentTok, name))
    case QAlias(name) => SCol(MakeToken(IdentTok, name))
    case QNeg(x) => Group(SNeg(OpToken(Sub), Concrete(x)))
    case QNot(x) => Group(SNot(KwToken(NOT), Concrete(x)))
    case QBin(op, l, r) => Group(SBin(Concrete(l), InfixToken(op), Concrete(r)))
    case QIn(x, list, negate) => Group(SIn(Concrete(x), NotTokens(negate), KwToken(IN), ConcreteArgs(list)))
    case QLike(x, p, negate) => Group(SLike(Concrete(x), NotTokens(negate), KwToken(LIKE), Concrete(p)))
    case QBetween(x, low, high, negate) =>
      Group(SBetween(Concrete(x), NotTokens(negate), KwToken(BETWEEN), Concrete(low), KwToken(AND), Concrete(high)))
    case QIsNull(x, negate) => Group(SIsNull(Concrete(x), KwToken(IS), NotTokens(negate), KwToken(NULL)))
    case _ => SStar(OpToken(Mul))
  }

  function ConcreteNumber(d: Decimal): Syn {
    if d.mantissa < 0 then SNeg(OpToken(Sub), SNum(NumToken(DecimalText(Decimal(-d.mantissa, d.scale)))))
    else SNum(NumToken(DecimalText(d)))
  }

  function Group(s: Syn): Syn {
    SParen(OPEN, s, CLOSE)
  }

  function ConcreteArgs(list: seq<Sq>): SArgs
    requires forall i :: 0 <= i < |list| ==> PlainSq(list[i])
    decreases list, 2
  {
    SArgs(OPEN, [], if list == [] then SNone else SMore([], Concrete(list[0]), ConcreteTail(list[1..])), CLOSE)
  }

  function ConcreteTail(list: seq<Sq>): SItems
    requires forall i :: 0 <= i < |list| ==> PlainSq(list[i])
    decreases list, 1
  {
    if list == [] then SNone else SMore([COMMA], Concrete(list[0]), ConcreteTail(list[1..]))
  }

  lemma ParenText(l: Layout)
    ensures Text(Paren(l)) == "(" + (Text(l) + ")")
  {
    assert Text(Leaf(Punct('('))) == "(" && Text(Leaf(Punct(')'))) == ")";
    assert Text(Cat(l, Leaf(Punct(')')))) == Text(l) + ")";
  }

  lemma FineSpace(rest: string)
    ensures Fine(Leaf(Space), rest) && Text(Leaf(Space)) == " "
  {
  }

  lemma FineParen(l: Layout, rest: string)
    requires Fine(l, ")" + rest)
    ensures Fine(Paren(l), rest)
  {
  }

  lemma FineInfixed(a: Layout, p: Piece, b: Layout, rest: string)
    requires PieceOk(p) && (p.Keyword? || p.Infix?) && Fine(b, rest)
    requires forall t :: Boundary(t) ==> Fine(a, t)
    ensures Fine(Infixed(a, p, b), rest)
  {
    var tail := Text(b) + rest;
    var mid := Cat(Leaf(p), Leaf(Space));
    FineSpace(tail);
    assert Fine(mid, tail);
    FineSpace(Text(mid) + tail);
    var spaced := Cat(Leaf(Space), mid);
    assert Fine(spaced, tail) && Text(spaced) == " " + Text(mid);
    assert Text(Cat(spaced, b)) == Text(spaced) + Text(b);
    assert Boundary(Text(Cat(spaced, b)) + rest);
  }

  lemma FineNegated(a: Layout, negate: bool)
    requires forall t :: Boundary(t) ==> Fine(a, t)
    ensures forall t :: Boundary(t) ==> Fine(Negated(a, negate), t)
  {
    var no := Cat(Leaf(Space), Leaf(Keyword(NOT)));
    forall t | Boundary(t)
      ensures Fine(Negated(a, negate), t)
    {
      FineSpace(Text(Leaf(Keyword(NOT))) + t);
      assert Fine(Leaf(Keyword(NOT)), t);
      assert Boundary(Text(no) + t);
    }
  }

  lemma FineNull(negate: bool, rest: string)
    requires Boundary(rest)
    ensures Fine(NullWord(negate), rest)
  {
  }

  lemma StartsUnsigned(q: Sq)
    requires PlainSq(q) && !NegativeNumber(q)
    ensures Render(q) != "" && Render(q)[0] != '-'
  {
    match q
    case QNeg(x) => ParenText(Cat(Leaf(Minus), LayoutOf(x)));
    case QNot(x) => ParenText(Cat(Leaf(Keyword(NOT)), Cat(Leaf(Space), LayoutOf(x))));
    case QBin(op, l, r) => ParenText(Infixed(LayoutOf(l), OpPiece(op), LayoutOf(r)));
    case QIn(x, list, negate) => ParenText(Infixed(Negated(LayoutOf(x), negate), Keyword(IN), Paren(LayoutList(list))));
    case QLike(x, p, negate) => ParenText(Infixed(Negated(LayoutOf(x), negate), Keyword(LIKE), LayoutOf(p)));
    case QBetween(x, low, high, negate) =>
      ParenText(Infixed(Negated(LayoutOf(x), negate), Keyword(BETWEEN),
          Infixed(LayoutOf(low), Keyword(AND), LayoutOf(high))));
    case QIsNull(x, negate) => ParenText(Infixed(LayoutOf(x), Keyword(IS), NullWord(negate)));
    case _ =>
  }

  lemma {:induction false} FineAnywhere(q: Sq)
    requires PlainSq(q)
    ensures forall t :: Boundary(t) ==> Fine(LayoutOf(q), t)
    decreases q, 2
  {
    forall t | Boundary(t)
      ensures Fine(LayoutOf(q), t)
    {
      FineExpr(q, t);
    }
  }

  /** No two neighbouring pieces run together, into another token or into a comment. */
  lemma {:induction false} FineExpr(q: Sq, rest: string)
    requires PlainSq(q) && Boundary(rest)
    ensures Fine(LayoutOf(q), rest)
    decreases q, 1
  {
    var end := ")" + rest;
    match q
    case QNeg(x) =>
      FineExpr(x, end);
      StartsUnsigned(x);
      FineMinus(LayoutOf(x), rest);
    case QNot(x) =>
      FineExpr(x, end);
      FineNot(LayoutOf(x), rest);
    case QBin(op, l, r) =>
      FineAnywhere(l);
      FineExpr(r, end);
      FineGroup(LayoutOf(l), OpPiece(op), LayoutOf(r), rest);
    case QIn(_, _, _) => FineIn(q, rest);
    case QLike(x, p, negate) =>
      FineAnywhere(x);
      FineNegated(LayoutOf(x), negate);
      FineExpr(p, end);
      FineGroup(Negated(LayoutOf(x), negate), Keyword(LIKE), LayoutOf(p), rest);
    case QBetween(x, low, high, negate) =>
      FineAnywhere(x);
      FineNegated(LayoutOf(x), negate);
      FineAnywhere(low);
      FineExpr(high, end);
      FineInfixed(LayoutOf(low), Keyword(AND), LayoutOf(high), end);
      FineGroup(Negated(LayoutOf(x), negate), Keyword(BETWEEN), Infixed(LayoutOf(low), Keyword(AND), LayoutOf(high)),
          rest);
    case QIsNull(x, negate) =>
      FineAnywhere(x);
      FineNull(negate, end);
      FineGroup(LayoutOf(x), Keyword(IS), NullWord(negate), rest);
    case _ =>
  }

  lemma {:induction false} FineIn(q: Sq, rest: string)
    requires q.QIn? && PlainSq(q) && Boundary(rest)
    ensures Fine(LayoutOf(q), rest)
    decreases q, 0
  {
    var end := ")" + rest;
    FineAnywhere(q.expr);
    FineNegated(LayoutOf(q.expr), q.negate);
    FineList(q.list, ")" + end);
    FineParen(LayoutList(q.list), end);
    FineGroup(Negated(LayoutOf(q.expr), q.negate), Keyword(IN), Paren(LayoutList(q.list)), rest);
  }

  lemma FineGroup(a: Layout, p: Piece, b: Layout, rest: string)
    requires PieceOk(p) && (p.Keyword? || p.Infix?) && Fine(b, ")" + rest)
    requires forall t :: Boundary(t) ==> Fine(a, t)
    ensures Fine(Paren(Infixed(a, p, b)), rest)
  {
    FineInfixed(a, p, b, ")" + rest);
    FineParen(Infixed(a, p, b), rest);
  }

  lemma FineMinus(x: Layout, rest: string)
    requires Fine(x, ")" + rest) && Text(x) != "" && Text(x)[0] != '-'
    ensures Fine(Paren(Cat(Leaf(Minus), x)), rest)
  {
    assert Fine(Leaf(Minus), Text(x) + (")" + rest));
    FineParen(Cat(Leaf(Minus), x), rest);
  }

  lemma FineNot(x: Layout, rest: string)
    requires Fine(x, ")" + rest)
    ensures Fine(Paren(Cat(Leaf(Keyword(NOT)), Cat(Leaf(Space), x))), rest)
  {
    FineSpace(Text(x) + (")" + rest));
    var spaced := Cat(Leaf(Space), x);
    assert Text(spaced) == " " + Text(x);
    assert Fine(Leaf(Keyword(NOT)), Text(spaced) + (")" + rest));
    FineParen(Cat(Leaf(Keyword(NOT)), spaced), rest);
  }

  lemma {:induction false} FineList(list: seq<Sq>, rest: string)
    requires (forall i :: 0 <= i < |list| ==> PlainSq(list[i])) && rest != "" && rest[0] == ')'
    ensures Fine(LayoutList(list), rest)
    decreases list, 3
  {
    if list != [] {
      FineTail(list[1..], rest);
      FineExpr(list[0], Text(LayoutTail(list[1..])) + rest);
    }
  }

  lemma {:induction false} FineTail(list: seq<Sq>, rest: string)
    requires (forall i :: 0 <= i < |list| ==> PlainSq(list[i])) && rest != "" && rest[0] == ')'
    ensures Fine(LayoutTail(list), rest) && Boundary(Text(LayoutTail(list)) + rest)
    decreases list, 2
  {
    if list != [] {
      FineTail(list[1..], rest);
      FineExpr(list[0], Text(LayoutTail(list[1..])) + rest);
      var tail := Text(Cat(LayoutOf(list[0]), LayoutTail(list[1..]))) + rest;
      var comma := Cat(Leaf(Punct(',')), Leaf(Space));
      FineSpace(tail);
      assert Fine(Leaf(Punct(',')), Text(Leaf(Space)) + tail) && Text(Leaf(Punct(','))) == ",";
      assert Text(comma) == ", ";
      assert Fine(comma, tail);
    } else {
      assert "" + rest == rest;
    }
  }
}

/** The tokenizer: its meaning as a function on text suffixes, and the scanning loop proved equal to it. */
module SqlLexer {
  import opened Basics
  import opened SqlNumbers
  import opened SqlTokens

  /** The text of a quoted token, and what follows its closing quote. */
  datatype Body = Body(value: string, rest: string)

  predicate IsSpace(c: char) {
    c == ' ' || c == '\t' || c == '\n' || c == '\r'
  }

  predicate IsIdentStart(c: char) {
    'A' <= c <= 'Z' || 'a' <= c <= 'z' || c == '_'
  }

  predicate IsIdentPart(c: char) {
    IsIdentStart(c) || IsDigit(c)
  }

  predicate Starts(s: string, a: char, b: char) {
    |s| > 1 && s[0] == a && s[1] == b
  }

  function AfterLine(s: string): (r: string)
    ensures |r| <= |s|
  {
    if s == "" || s[0] == '\n' then s else AfterLine(s[1..])
  }

  /** An unterminated block comment swallows the rest of the query. */
  function AfterBlock(s: string): (r: string)
    ensures |r| <= |s|
  {
    if s == "" then "" else if Starts(s, '*', '/') then s[2..] else AfterBlock(s[1..])
  }

  /** After the opening single quote; a doubled quote stands for one. */
  function StrBody(s: string): (b: Body)
    ensures |b.rest| <= |s|
  {
    if s == "" then Body("", "")
    else if Starts(s, '\'', '\'') then
      var b := StrBody(s[2..]);
      Body("'" + b.value, b.rest)
    else if s[0] == '\'' then Body("", s[1..])
    else
      var b := StrBody(s[1..]);
      Body([s[0]] + b.value, b.rest)
  }

  /** After the opening quote of an identifier; there is no escape. */
  function NameBody(s: string, quote: char): (b: Body)
    ensures |b.rest| <= |s|
  {
    if s == "" then Body("", "")
    else if s[0] == quote then Body("", s[1..])
    else
      var b := NameBody(s[1..], quote);
      Body([s[0]] + b.value, b.rest)
  }

  /** Length of a number: digits with at most one point. */
  function NumberRun(s: string, seenDot: bool): (k: nat)
    ensures k <= |s| && (s != "" && IsDigit(s[0]) ==> k > 0)
  {
    if s == "" then 0
    else if IsDigit(s[0]) then 1 + NumberRun(s[1..], seenDot)
    else if s[0] == '.' && !seenDot then 1 + NumberRun(s[1..], true)
    else 0
  }

  function IdentRun(s: string): (k: nat)
    ensures k <= |s| && (s != "" && IsIdentPart(s[0]) ==> k > 0)
  {
    if s != "" && IsIdentPart(s[0]) then 1 + IdentRun(s[1..]) else 0
  }

  function TwoCharOp(s: string): Option<BinOp> {
    if Starts(s, '<', '=') then Some(Le)
    else if Starts(s, '>', '=') then Some(Ge)
    else if Starts(s, '!', '=') then Some(Ne)
    else if Starts(s, '<', '>') then Some(LtGt)
    else None
  }

  function OneCharOp(c: char): Option<BinOp> {
    match c
    case '+' => Some(Add)
    case '-' => Some(Sub)
    case '*' => Some(Mul)
    case '/' => Some(Div)
    case '%' => Some(Mod)
    case '=' => Some(Eq)
    case '<' => Some(Lt)
    case '>' => Some(Gt)
    case _ => None
  }

  predicate IsPunct(c: char) {
    c == '(' || c == ')' || c == ',' || c == '.' || c == ';'
  }

  /** One step: skip blank text or a comment, or read one token. The failure is the unreadable text. */
  datatype Step = Skip(rest: string) | Take(tok: Token, rest: string) | Stuck

  function LexStep(s: string): (r: Step)
    requires s != ""
    ensures !r.Stuck? ==> |r.rest| < |s|
  {
    var c := s[0];
    if IsSpace(c) then Skip(s[1..])
    else if Starts(s, '-', '-') then Skip(AfterLine(s[2..]))
    else if Starts(s, '/', '*') then Skip(AfterBlock(s[2..]))
    else if c == '\'' then Take(MakeToken(StrTok, StrBody(s[1..]).value), StrBody(s[1..]).rest)
    else if c == '`' || c == '"' then Take(MakeToken(IdentTok, NameBody(s[1..], c).value), NameBody(s[1..], c).rest)
    else if IsDigit(c) then Take(NumToken(s[..NumberRun(s, false)]), s[NumberRun(s, false)..])
    else if IsIdentStart(c) then Take(MakeToken(IdentTok, s[..IdentRun(s)]), s[IdentRun(s)..])
    else if TwoCharOp(s).Some? then Take(OpToken(TwoCharOp(s).value), s[2..])
    else if OneCharOp(c).Some? then Take(OpToken(OneCharOp(c).value), s[1..])
    else if IsPunct(c) then Take(MakeToken(PunctTok, [c]), s[1..])
    else Stuck
  }

  function Lex(s: string): Result<seq<Token>, string>
    decreases |s|
  {
    if s == "" then Success([])
    else
      match LexStep(s)
      case Stuck => Failure(s)
      case Skip(rest) => Lex(rest)
      case Take(tok, rest) => Push([tok], Lex(rest))
  }

  /** Tokens read earlier in front of what the rest of the text yields. */
  function Push(toks: seq<Token>, r: Result<seq<Token>, string>): Result<seq<Token>, string> {
    if r.Success? then Success(toks + r.value) else r
  }

  lemma PushNothing(r: Result<seq<Token>, string>)
    ensures Push([], r) == r
  {
    if r.Success? {
      assert [] + r.value == r.value;
    }
  }

  lemma PushPush(a: seq<Token>, t: Token, r: Result<seq<Token>, string>)
    ensures Push(a, Push([t], r)) == Push(a + [t], r)
  {
    if r.Success? {
      assert a + ([t] + r.value) == (a + [t]) + r.value;
    }
  }

  method Tokenize(sql: string) returns (r: Result<seq<Token>, string>)
    ensures r == Lex(sql)
  {
    var toks: seq<Token> := [];
    var i := 0;
    assert sql[0..] == sql;
    PushNothing(Lex(sql));
    while i < |sql|
      invariant i <= |sql| && Lex(sql) == Push(toks, Lex(sql[i..]))
    {
      var c := sql[i];
      if IsSpace(c) {
        i := i + 1;
      } else if c == '-' && i + 1 < |sql| && sql[i + 1] == '-' {
        i := SkipLine(sql, i + 2);
      } else if c == '/' && i + 1 < |sql| && sql[i + 1] == '*' {
        i := SkipBlock(sql, i + 2);
      } else {
        var tok, end := ReadToken(sql, i);
        if tok.None? {
          return Failure(sql[i..]);
        }
        PushPush(toks, tok.value, Lex(sql[end..]));
        toks, i := toks + [tok.value], end;
      }
    }
    assert sql[i..] == "" && toks + [] == toks;
    r := Success(toks);
  }

  /** The token at `i`, which starts neither blank text nor a comment. */
  method ReadToken(sql: string, i: nat) returns (tok: Option<Token>, end: nat)
    requires i < |sql| && !LexStep(sql[i..]).Skip?
    ensures i <= end <= |sql|
    ensures LexStep(sql[i..]) == if tok.None? then Stuck else Take(tok.value, sql[end..])
    ensures tok.Some? ==> i < end
  {
    var c := sql[i];
    if c == '\'' || c == '`' || c == '"' {
      tok, end := ReadQuoted(sql, i);
    } else if IsDigit(c) || IsIdentStart(c) {
      tok, end := ReadWord(sql, i);
    } else {
      tok, end := ReadSymbol(sql, i);
      SymbolStep(sql[i..]);
    }
  }

  lemma SymbolStep(s: string)
    requires s != "" && !LexStep(s).Skip?
    requires s[0] != '\'' && s[0] != '`' && s[0] != '"' && !IsDigit(s[0]) && !IsIdentStart(s[0])
    ensures LexStep(s) ==
            if TwoCharOp(s).Some? then Take(OpToken(TwoCharOp(s).value), s[2..])
            else if OneCharOp(s[0]).Some? then Take(OpToken(OneCharOp(s[0]).value), s[1..])
            else if IsPunct(s[0]) then Take(MakeToken(PunctTok, [s[0]]), s[1..])
            else Stuck
  {
  }

  method ReadWord(sql: string, i: nat) returns (tok: Option<Token>, end: nat)
    requires i < |sql| && (IsDigit(sql[i]) || IsIdentStart(sql[i]))
    ensures i < end <= |sql| && tok.Some? && LexStep(sql[i..]) == Take(tok.value, sql[end..])
  {
    ghost var s := sql[i..];
    if IsDigit(sql[i]) {
      end := ReadNumber(sql, i);
      RunAt(sql, i, end);
      NumberStep(s, end - i);
      tok := Some(NumToken(sql[i..end]));
    } else {
      end := ReadIdent(sql, i);
      RunAt(sql, i, end);
      IdentStep(s, end - i);
      tok := Some(MakeToken(IdentTok, sql[i..end]));
    }
  }

  lemma RunAt(sql: string, i: nat, end: nat)
    requires i <= end <= |sql|
    ensures sql[i..][..end - i] == sql[i..end] && sql[i..][end - i..] == sql[end..]
  {
  }

  lemma NumberStep(s: string, k: nat)
    requires s != "" && IsDigit(s[0]) && k == NumberRun(s, false)
    ensures k > 0 && LexStep(s) == Take(NumToken(s[..k]), s[k..])
  {
  }

  lemma IdentStep(s: string, k: nat)
    requires s != "" && IsIdentStart(s[0]) && k == IdentRun(s)
    ensures k > 0 && LexStep(s) == Take(MakeToken(IdentTok, s[..k]), s[k..])
  {
    var c := s[0];
    assert !IsSpace(c) && c != '-' && c != '/' && c != '\'' && c != '`' && c != '"' && !IsDigit(c);
    assert !Starts(s, '-', '-') && !Starts(s, '/', '*');
  }

  method ReadQuoted(sql: string, i: nat) returns (tok: Option<Token>, end: nat)
    requires i < |sql| && (sql[i] == '\'' || sql[i] == '`' || sql[i] == '"')
    ensures i < end <= |sql| && tok.Some? && LexStep(sql[i..]) == Take(tok.value, sql[end..])
  {
    var value;
    if sql[i] == '\'' {
      value, end := ReadString(sql, i + 1);
      tok := Some(MakeToken(StrTok, value));
    } else {
      value, end := ReadName(sql, i + 1, sql[i]);
      tok := Some(MakeToken(IdentTok, value));
    }
  }

  method ReadSymbol(sql: string, i: nat) returns (tok: Option<Token>, end: nat)
    requires i < |sql|
    ensures i <= end <= |sql|
    ensures var s := sql[i..];
            && (TwoCharOp(s).Some? ==> tok == Some(OpToken(TwoCharOp(s).value)) && sql[end..] == s[2..])
            && (TwoCharOp(s).None? && OneCharOp(s[0]).Some? ==>
                tok == Some(OpToken(OneCharOp(s[0]).value)) && sql[end..] == s[1..])
            && (TwoCharOp(s).None? && OneCharOp(s[0]).None? ==>
                if IsPunct(s[0]) then tok == Some(MakeToken(PunctTok, [s[0]])) && sql[end..] == s[1..] else tok == None)
    ensures tok.Some? ==> i < end
  {
    var two, one := TwoCharOp(sql[i..]), OneCharOp(sql[i]);
    if two.Some? {
      return Some(OpToken(two.value)), i + 2;
    } else if one.Some? {
      return Some(OpToken(one.value)), i + 1;
    } else if IsPunct(sql[i]) {
      return Some(MakeToken(PunctTok, [sql[i]])), i + 1;
    } else {
      return None, i;
    }
  }

  method SkipLine(sql: string, start: nat) returns (i: nat)
    requires start <= |sql|
    ensures start <= i <= |sql| && sql[i..] == AfterLine(sql[start..])
  {
    i := start;
    while i < |sql| && sql[i] != '\n'
      invariant start <= i <= |sql| && AfterLine(sql[i..]) == AfterLine(sql[start..])
    {
      i := i + 1;
    }
  }

  method SkipBlock(sql: string, start: nat) returns (i: nat)
    requires start <= |sql|
    ensures start <= i <= |sql| && sql[i..] == AfterBlock(sql[start..])
  {
    i := start;
    while i < |sql| && !(sql[i] == '*' && i + 1 < |sql| && sql[i + 1] == '/')
      invariant start <= i <= |sql| && AfterBlock(sql[i..]) == AfterBlock(sql[start..])
    {
      i := i + 1;
    }
    if i < |sql| {
      i := i + 2;
    }
  }

  /** What has been read, then the rest of a body. */
  function Onto(value: string, b: Body): Body {
    Body(value + b.value, b.rest)
  }

  lemma OntoOne(value: string, c: char, b: Body)
    ensures Onto(value, Onto([c], b)) == Onto(value + [c], b)
  {
  }

  lemma StrStep(s: string, value: string)
    requires s != ""
    ensures if Starts(s, '\'', '\'') then Onto(value, StrBody(s)) == Onto(value + "'", StrBody(s[2..]))
            else if s[0] == '\'' then Onto(value, StrBody(s)) == Body(value, s[1..])
            else Onto(value, StrBody(s)) == Onto(value + [s[0]], StrBody(s[1..]))
  {
    if Starts(s, '\'', '\'') {
      OntoOne(value, '\'', StrBody(s[2..]));
    } else if s[0] == '\'' {
      assert value + "" == value;
    } else {
      OntoOne(value, s[0], StrBody(s[1..]));
    }
  }

  /** The same at position `i` of a query. */
  lemma StrAt(sql: string, i: nat, value: string)
    requires i < |sql|
    ensures var b := Onto(value, StrBody(sql[i..]));
            if sql[i] == '\'' && i + 1 < |sql| && sql[i + 1] == '\'' then b == Onto(value + "'", StrBody(sql[i + 2..]))
            else if sql[i] == '\'' then b == Body(value, sql[i + 1..])
            else b == Onto(value + [sql[i]], StrBody(sql[i + 1..]))
  {
    var left := sql[i..];
    assert left[0] == sql[i] && left[1..] == sql[i + 1..];
    assert |left| > 1 ==> left[1] == sql[i + 1] && left[2..] == sql[i + 2..];
    StrStep(left, value);
  }

  lemma NameStep(s: string, quote: char, value: string)
    requires s != ""
    ensures if s[0] == quote then Onto(value, NameBody(s, quote)) == Body(value, s[1..])
            else Onto(value, NameBody(s, quote)) == Onto(value + [s[0]], NameBody(s[1..], quote))
  {
  }

  method ReadString(sql: string, start: nat) returns (value: string, i: nat)
    requires start <= |sql|
    ensures start <= i <= |sql| && StrBody(sql[start..]) == Body(value, sql[i..])
  {
    value, i := "", start;
    ghost var whole := StrBody(sql[start..]);
    while i < |sql|
      invariant start <= i <= |sql| && whole == Onto(value, StrBody(sql[i..]))
    {
      StrAt(sql, i, value);
      if sql[i] != '\'' {
        value, i := value + [sql[i]], i + 1;
      } else if i + 1 < |sql| && sql[i + 1] == '\'' {
        value, i := value + "'", i + 2;
      } else {
        i := i + 1;
        return;
      }
    }
    StrEnds(sql, value);
  }

  lemma StrEnds(sql: string, value: string)
    ensures Onto(value, StrBody(sql[|sql|..])) == Body(value, sql[|sql|..])
  {
    assert sql[|sql|..] == "" && value + "" == value;
  }

  method ReadName(sql: string, start: nat, quote: char) returns (value: string, i: nat)
    requires start <= |sql|
    ensures start <= i <= |sql| && NameBody(sql[start..], quote) == Body(value, sql[i..])
  {
    value, i := "", start;
    while i < |sql| && sql[i] != quote
      invariant start <= i <= |sql|
      invariant NameBody(sql[start..], quote) == Onto(value, NameBody(sql[i..], quote))
    {
      ghost var left := sql[i..];
      assert left[0] == sql[i] && left[1..] == sql[i + 1..];
      NameStep(left, quote, value);
      value, i := value + [sql[i]], i + 1;
    }
    if i < |sql| {
      ghost var left := sql[i..];
      assert left[0] == sql[i] && left[1..] == sql[i + 1..];
      NameStep(left, quote, value);
      i := i + 1;
    }
  }

  method ReadNumber(sql: string, start: nat) returns (i: nat)
    requires start <= |sql|
    ensures start <= i <= |sql| && i - start == NumberRun(sql[start..], false)
  {
    i := start;
    var seenDot := false;
    while i < |sql|
      invariant start <= i <= |sql| && NumberRun(sql[start..], false) == i - start + NumberRun(sql[i..], seenDot)
    {
      if IsDigit(sql[i]) {
        i := i + 1;
      } else if sql[i] == '.' && !seenDot {
        seenDot, i := true, i + 1;
      } else {
        break;
      }
    }
  }

  method ReadIdent(sql: string, start: nat) returns (i: nat)
    requires start <= |sql|
    ensures start <= i <= |sql| && i - start == IdentRun(sql[start..])
  {
    i := start;
    while i < |sql| && IsIdentPart(sql[i])
      invariant start <= i <= |sql| && IdentRun(sql[start..]) == i - start + IdentRun(sql[i..])
    {
      i := i + 1;
    }
  }

  // ---- Comments, and where words and numbers end ----

  lemma {:induction false} LineEnds(body: string, rest: string)
    requires '\n' !in body && (rest == "" || rest[0] == '\n')
    ensures AfterLine(body + rest) == rest
  {
    if body == "" {
      assert body + rest == rest;
    } else {
      assert (body + rest)[0] == body[0] && (body + rest)[1..] == body[1..] + rest;
      LineEnds(body[1..], rest);
    }
  }

  predicate ClosesIn(body: string) {
    exists i :: 0 <= i < |body| - 1 && body[i] == '*' && body[i + 1] == '/'
  }

  lemma {:induction false} BlockEnds(body: string, rest: string)
    requires !ClosesIn(body + "*")
    ensures AfterBlock(body + ("*/" + rest)) == rest
  {
    var s := body + ("*/" + rest);
    if body == "" {
      assert s == "*/" + rest && s[2..] == rest;
    } else {
      var tail := body[1..];
      assert s[0] == body[0] && s[1..] == tail + ("*/" + rest);
      assert !Starts(s, '*', '/') by {
        assert |body| > 1 ==> s[1] == body[1] == (body + "*")[1];
        assert (body + "*")[0] == body[0];
      }
      assert !ClosesIn(tail + "*") by {
        assert tail + "*" == (body + "*")[1..];
      }
      BlockEnds(tail, rest);
    }
  }

  /** White space and comments are no tokens; a comment that is not closed swallows the rest. */
  lemma CommentsSkipped(c: char, body: string, rest: string)
    ensures c == ' ' || c == '\t' || c == '\n' || c == '\r' ==> Lex([c] + rest) == Lex(rest)
    ensures '\n' !in body && (rest == "" || rest[0] == '\n') ==> Lex("--" + (body + rest)) == Lex(rest)
    ensures !ClosesIn(body + "*") ==> Lex("/*" + (body + ("*/" + rest))) == Lex(rest)
  {
    assert ([c] + rest)[1..] == rest;
    if '\n' !in body && (rest == "" || rest[0] == '\n') {
      LineEnds(body, rest);
      assert ("--" + (body + rest))[2..] == body + rest;
    }
    if !ClosesIn(body + "*") {
      BlockEnds(body, rest);
      assert ("/*" + (body + ("*/" + rest)))[2..] == body + ("*/" + rest);
    }
  }

  lemma {:induction false} DigitsRun(a: string, rest: string, seenDot: bool)
    requires AllDigits(a) && (rest == "" || !IsDigit(rest[0])) && (rest != "" && rest[0] == '.' ==> seenDot)
    ensures NumberRun(a + rest, seenDot) == |a|
  {
    if a == "" {
      assert a + rest == rest;
    } else {
      assert (a + rest)[0] == a[0] && (a + rest)[1..] == a[1..] + rest;
      DigitsRun(a[1..], rest, seenDot);
    }
  }

  lemma {:induction false} PointRun(a: string, b: string, rest: string)
    requires AllDigits(a) && AllDigits(b) && (rest == "" || !IsDigit(rest[0]))
    ensures NumberRun(a + ("." + (b + rest)), false) == |a| + 1 + |b|
  {
    var s := a + ("." + (b + rest));
    if a == "" {
      assert s == "." + (b + rest) && s[1..] == b + rest;
      DigitsRun(b, rest, true);
    } else {
      assert s[0] == a[0] && s[1..] == a[1..] + ("." + (b + rest));
      PointRun(a[1..], b, rest);
    }
  }

  /** A number is its digits with the first point among them, and ends at the second. */
  lemma NumberEnds(a: string, b: string, rest: string)
    requires a != "" && AllDigits(a) && AllDigits(b) && (rest == "" || !IsDigit(rest[0]))
    ensures LexStep(a + ("." + (b + rest))) == Take(NumToken(a + ("." + b)), rest)
    ensures rest == "" || rest[0] != '.' ==> LexStep(a + rest) == Take(NumToken(a), rest)
  {
    var s, k := a + ("." + (b + rest)), |a| + 1 + |b|;
    PointRun(a, b, rest);
    assert s[..k] == a + ("." + b) && s[k..] == rest;
    NumberStep(s, k);
    if rest == "" || rest[0] != '.' {
      DigitsRun(a, rest, false);
      NumberStep(a + rest, |a|);
      assert (a + rest)[..|a|] == a && (a + rest)[|a|..] == rest;
    }
  }

  /** A letter, a digit or an underscore. */
  predicate WordChar(c: char) {
    'a' <= c <= 'z' || 'A' <= c <= 'Z' || '0' <= c <= '9' || c == '_'
  }

  lemma {:induction false} WordRun(w: string, rest: string)
    requires (forall i :: 0 <= i < |w| ==> WordChar(w[i])) && (rest == "" || !WordChar(rest[0]))
    ensures IdentRun(w + rest) == |w|
  {
    if w == "" {
      assert w + rest == rest;
    } else {
      assert (w + rest)[0] == w[0] && (w + rest)[1..] == w[1..] + rest;
      WordRun(w[1..], rest);
    }
  }

  /** A word goes on as far as letters, digits and underscores do. */
  lemma WordEnds(w: string, rest: string)
    requires w != "" && !('0' <= w[0] <= '9') && (forall i :: 0 <= i < |w| ==> WordChar(w[i]))
    requires rest == "" || !WordChar(rest[0])
    ensures LexStep(w + rest) == Take(MakeToken(IdentTok, w), rest)
  {
    WordRun(w, rest);
    assert (w + rest)[0] == w[0];
    IdentStep(w + rest, |w|);
    assert (w + rest)[..|w|] == w && (w + rest)[|w|..] == rest;
  }

  lemma {:induction false} NameEnds(name: string, quote: char, rest: string)
    requires quote !in name
    ensures NameBody(name + ([quote] + rest), quote) == Body(name, rest) && NameBody(name, quote) == Body(name, "")
  {
    var s := name + ([quote] + rest);
    if name == "" {
      assert s == [quote] + rest && s[1..] == rest;
    } else {
      assert s[0] == name[0] && s[1..] == name[1..] + ([quote] + rest);
      NameEnds(name[1..], quote, rest);
      assert name == [name[0]] + name[1..];
    }
  }

  /** A name in backquotes or double quotes is all that stands between them, and runs to the end without the second. */
  lemma QuotedName(quote: char, name: string, rest: string)
    requires (quote == '`' || quote == '"') && quote !in name
    ensures LexStep([quote] + (name + ([quote] + rest))) == Take(MakeToken(IdentTok, name), rest)
    ensures LexStep([quote] + name) == Take(MakeToken(IdentTok, name), "")
  {
    NameEnds(name, quote, rest);
    assert ([quote] + (name + ([quote] + rest)))[1..] == name + ([quote] + rest) && ([quote] + name)[1..] == name;
  }

  /** Operators of two characters come before those of one. */
  lemma OperatorRead(op: BinOp, rest: string)
    requires !op.And? && !op.Or? && (rest == "" || rest[0] !in {'=', '>', '-', '*'})
    ensures LexStep(op.Spelling() + rest) == Take(OpToken(op), rest)
  {
    var s := op.Spelling() + rest;
    assert s[0] == op.Spelling()[0] && s[|op.Spelling()|..] == rest;
    assert |op.Spelling()| == 2 ==> s[1] == op.Spelling()[1];
    assert |op.Spelling()| == 1 && rest != "" ==> s[1] == rest[0];
  }

  lemma PunctuationRead(c: char, rest: string)
    requires c in {'(', ')', ',', '.', ';'}
    ensures LexStep([c] + rest) == Take(MakeToken(PunctTok, [c]), rest)
  {
    assert ([c] + rest)[1..] == rest;
  }

  /** What starts no token: an exclamation mark that is not part of `!=`, and every character without a use. */
  lemma StuckWhen(s: string)
    requires s != ""
    ensures LexStep(s).Stuck? <==>
            && !WordChar(s[0])
            && s[0] !in {' ', '\t', '\n', '\r', '\'', '`', '"', '(', ')', ',', '.', ';'}
            && s[0] !in {'+', '-', '*', '/', '%', '=', '<', '>'} && !(s[0] == '!' && |s| > 1 && s[1] == '=')
  {
  }
}

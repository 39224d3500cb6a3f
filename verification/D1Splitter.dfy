/** The statement splitter of D1's `exec`: text to statements, quotes kept and comments blanked. */
module D1Splitter {
  import opened Basics

  predicate Starts(s: string, a: char, b: char) {
    |s| > 1 && s[0] == a && s[1] == b
  }

  predicate IsQuote(c: char) {
    c == '\'' || c == '"'
  }

  /** After an opening quote: how much belongs to the literal, closing quote included. A doubled quote is
      part of it, and an unterminated literal runs to the end. */
  function QuoteRun(s: string, q: char): (n: nat)
    ensures n <= |s|
  {
    if s == "" then 0
    else if Starts(s, q, q) then 2 + QuoteRun(s[2..], q)
    else if s[0] == q then 1
    else 1 + QuoteRun(s[1..], q)
  }

  function AfterLine(s: string): (r: string)
    ensures |r| <= |s|
  {
    if s == "" then "" else if s[0] == '\n' then s[1..] else AfterLine(s[1..])
  }

  /** An unterminated block comment leaves its last character to be read as ordinary text. */
  function AfterBlock(s: string): (r: string)
    ensures |r| <= |s|
  {
    if |s| < 2 then s else if Starts(s, '*', '/') then s[2..] else AfterBlock(s[1..])
  }

  function Flush(current: string): seq<string> {
    if Trim(current) == "" then [] else [Trim(current)]
  }

  function Split(s: string, current: string): seq<string>
    decreases |s|
  {
    if s == "" then Flush(current)
    else if IsQuote(s[0]) then
      var n := 1 + QuoteRun(s[1..], s[0]);
      Split(s[n..], current + s[..n])
    else if Starts(s, '-', '-') then Split(AfterLine(s[2..]), current + " ")
    else if Starts(s, '/', '*') then Split(AfterBlock(s[2..]), current + " ")
    else if s[0] == ';' then Flush(current) + Split(s[1..], "")
    else Split(s[1..], current + [s[0]])
  }

  // ---- The loop ----

  method SplitStatements(sql: string) returns (statements: seq<string>)
    ensures statements == Split(sql, "")
  {
    statements := [];
    var current := "";
    var i := 0;
    assert sql[0..] == sql;
    while i < |sql|
      invariant i <= |sql| && Split(sql, "") == statements + Split(sql[i..], current)
    {
      var ch := sql[i];
      ghost var left := sql[i..];
      assert left[0] == ch && left[1..] == sql[i + 1..];
      if IsQuote(ch) {
        var end := CopyQuoted(sql, i + 1, ch);
        assert sql[i..end] == left[..end - i] && sql[end..] == left[end - i..];
        current, i := current + sql[i..end], end;
      } else if ch == '-' && i + 1 < |sql| && sql[i + 1] == '-' {
        assert left[2..] == sql[i + 2..];
        i := SkipLine(sql, i + 2);
        current := current + " ";
      } else if ch == '/' && i + 1 < |sql| && sql[i + 1] == '*' {
        assert left[2..] == sql[i + 2..];
        i := SkipBlock(sql, i + 2);
        current := current + " ";
      } else if ch == ';' {
        var trimmed := Trim(current);
        SplitAtSemicolon(left, current, statements);
        if |trimmed| > 0 {
          statements := statements + [trimmed];
        }
        current, i := "", i + 1;
      } else {
        current, i := current + [ch], i + 1;
      }
    }
    assert sql[i..] == "";
    var trimmed := Trim(current);
    if |trimmed| > 0 {
      statements := statements + [trimmed];
    }
  }

  lemma SplitAtSemicolon(s: string, current: string, statements: seq<string>)
    requires s != "" && s[0] == ';'
    ensures statements + Split(s, current) ==
              (if Trim(current) == "" then statements else statements + [Trim(current)]) + Split(s[1..], "")
  {
    assert statements + (Flush(current) + Split(s[1..], "")) == (statements + Flush(current)) + Split(s[1..], "");
  }

  method CopyQuoted(sql: string, start: nat, q: char) returns (i: nat)
    requires start <= |sql|
    ensures start <= i <= |sql| && i - start == QuoteRun(sql[start..], q)
  {
    i := start;
    while i < |sql|
      invariant start <= i <= |sql| && QuoteRun(sql[start..], q) == i - start + QuoteRun(sql[i..], q)
    {
      var c := sql[i];
      ghost var left := sql[i..];
      i := i + 1;
      if c == q && i < |sql| && sql[i] == q {
        i := i + 1;
      } else if c == q {
        assert QuoteRun(left, q) == 1;
        return;
      }
    }
  }

  method SkipLine(sql: string, start: nat) returns (i: nat)
    requires start <= |sql|
    ensures start <= i <= |sql| && sql[i..] == AfterLine(sql[start..])
  {
    i := start;
    while i < |sql| && sql[i] != '\n'
      invariant start <= i <= |sql| && AfterLine(sql[i..]) == AfterLine(sql[start..])
    {
      i := i + 1;
    }
    if i < |sql| {
      i := i + 1;
    }
  }

  method SkipBlock(sql: string, start: nat) returns (i: nat)
    requires start <= |sql|
    ensures start <= i <= |sql| && sql[i..] == AfterBlock(sql[start..])
  {
    i := start;
    while i + 1 < |sql| && !(sql[i] == '*' && sql[i + 1] == '/')
      invariant start <= i <= |sql| && AfterBlock(sql[i..]) == AfterBlock(sql[start..])
    {
      i := i + 1;
    }
    if i + 1 < |sql| {
      i := i + 2;
    }
  }

  // ---- Statements that the splitter copies ----

  /** A literal whose closing quote is present. */
  predicate Terminated(s: string, q: char) {
    s != "" && (if Starts(s, q, q) then Terminated(s[2..], q) else s[0] == q || Terminated(s[1..], q))
  }

  /** Text read as literals and ordinary characters only: no separator, no comment. `open` allows a last
      literal to be unterminated. */
  predicate Copied(t: string, open: bool)
    decreases |t|
  {
    t == "" ||
    if IsQuote(t[0]) then
      (open || Terminated(t[1..], t[0])) && Copied(t[1 + QuoteRun(t[1..], t[0])..], open)
    else
      !Starts(t, '-', '-') && !Starts(t, '/', '*') && t[0] != ';' && Copied(t[1..], open)
  }

  /** Two characters that mean something else when they meet. */
  predicate Glue(a: char, b: char) {
    (a == '-' && b == '-') || (a == '/' && b == '*') || (IsQuote(a) && a == b)
  }

  predicate Apart(a: string, b: string) {
    a != "" && b != "" ==> !Glue(a[|a| - 1], b[0])
  }

  lemma {:induction false} CopiedOpen(t: string)
    requires Copied(t, false)
    ensures Copied(t, true)
    decreases |t|
  {
    if t != "" {
      CopiedOpen(if IsQuote(t[0]) then t[1 + QuoteRun(t[1..], t[0])..] else t[1..]);
    }
  }

  /** A copied text reaches the end as one statement. */
  lemma {:induction false} CopiedIsOne(t: string, current: string)
    requires Copied(t, true)
    ensures Split(t, current) == Flush(current + t)
    decreases |t|
  {
    if t == "" {
      assert current + t == current;
    } else {
      var n := if IsQuote(t[0]) then 1 + QuoteRun(t[1..], t[0]) else 1;
      CopiedIsOne(t[n..], current + t[..n]);
      assert current + t[..n] + t[n..] == current + t;
      assert t[..1] == [t[0]];
    }
  }

  lemma {:induction false} QuoteRunThen(s: string, rest: string, q: char)
    requires Terminated(s, q) && (QuoteRun(s, q) < |s| || rest == "" || rest[0] != q)
    ensures QuoteRun(s + rest, q) == QuoteRun(s, q) && Terminated(s + rest, q)
  {
    if Starts(s, q, q) {
      assert (s + rest)[2..] == s[2..] + rest;
      QuoteRunThen(s[2..], rest, q);
    } else if s[0] != q {
      assert (s + rest)[1..] == s[1..] + rest;
      QuoteRunThen(s[1..], rest, q);
    }
  }

  /** In front of text that does not glue to it a closed text is copied as it stands. */
  lemma {:induction false} ClosedThen(t: string, rest: string, current: string)
    requires Copied(t, false) && Apart(t, rest)
    ensures Split(t + rest, current) == Split(rest, current + t)
    decreases |t|
  {
    if t == "" {
      assert t + rest == rest && current + t == current;
    } else {
      var n := if IsQuote(t[0]) then 1 + QuoteRun(t[1..], t[0]) else 1;
      if IsQuote(t[0]) {
        LastOfRun(t[1..], t[0]);
        QuoteRunThen(t[1..], rest, t[0]);
        assert (t + rest)[1..] == t[1..] + rest;
      }
      assert (t + rest)[n..] == t[n..] + rest && (t + rest)[..n] == t[..n] && t[..1] == [t[0]];
      ClosedThen(t[n..], rest, current + t[..n]);
      assert current + t[..n] + t[n..] == current + t;
    }
  }

  lemma {:induction false} LastOfRun(s: string, q: char)
    requires Terminated(s, q)
    ensures QuoteRun(s, q) > 0 && s[QuoteRun(s, q) - 1] == q
  {
    if Starts(s, q, q) {
      LastOfRun(s[2..], q);
    } else if s[0] != q {
      LastOfRun(s[1..], q);
    }
  }

  /** Closed text stays copied when text that does not glue to it follows. */
  lemma {:induction false} CopiedJoin(a: string, b: string, open: bool)
    requires Copied(a, false) && Copied(b, open) && Apart(a, b)
    ensures Copied(a + b, open)
    decreases |a|
  {
    if a == "" {
      assert a + b == b;
    } else {
      var n := if IsQuote(a[0]) then 1 + QuoteRun(a[1..], a[0]) else 1;
      if IsQuote(a[0]) {
        LastOfRun(a[1..], a[0]);
        QuoteRunThen(a[1..], b, a[0]);
        assert (a + b)[1..] == a[1..] + b;
      }
      assert (a + b)[n..] == a[n..] + b;
      CopiedJoin(a[n..], b, open);
    }
  }

  // ---- Trimming ----

  lemma {:induction false} TrimStartCopied(t: string, open: bool)
    requires Copied(t, open)
    ensures Copied(TrimStart(t), open)
  {
    if t != "" && IsWhite(t[0]) {
      TrimStartCopied(t[1..], open);
    }
  }

  lemma {:induction false} TerminatedWithout(s: string, w: char, q: char)
    requires w != q
    ensures Terminated(s + [w], q) == Terminated(s, q)
    ensures Terminated(s, q) ==> QuoteRun(s + [w], q) == QuoteRun(s, q)
    ensures !Terminated(s, q) ==> QuoteRun(s + [w], q) == |s| + 1
  {
    if s == "" {
      assert s + [w] == [w];
    } else if Starts(s, q, q) {
      assert (s + [w])[2..] == s[2..] + [w];
      TerminatedWithout(s[2..], w, q);
    } else if s[0] != q {
      assert (s + [w])[1..] == s[1..] + [w];
      TerminatedWithout(s[1..], w, q);
    }
  }

  lemma {:induction false} UnterminatedRun(s: string, q: char)
    requires !Terminated(s, q)
    ensures QuoteRun(s, q) == |s|
  {
    if s != "" {
      UnterminatedRun(if Starts(s, q, q) then s[2..] else s[1..], q);
    }
  }

  lemma {:induction false} CopiedWithout(t: string, w: char, open: bool)
    requires IsWhite(w) && Copied(t + [w], open)
    ensures Copied(t, open)
    decreases |t|
  {
    if t != "" {
      assert (t + [w])[1..] == t[1..] + [w];
      if IsQuote(t[0]) {
        TerminatedWithout(t[1..], w, t[0]);
        if Terminated(t[1..], t[0]) {
          var n := 1 + QuoteRun(t[1..], t[0]);
          assert (t + [w])[n..] == t[n..] + [w];
          CopiedWithout(t[n..], w, open);
        } else {
          UnterminatedRun(t[1..], t[0]);
        }
      } else {
        CopiedWithout(t[1..], w, open);
      }
    }
  }

  lemma {:induction false} TrimEndCopied(t: string, open: bool)
    requires Copied(t, open)
    ensures Copied(TrimEnd(t), open)
    decreases |t|
  {
    if t != "" && IsWhite(t[|t| - 1]) {
      assert t == t[..|t| - 1] + [t[|t| - 1]];
      CopiedWithout(t[..|t| - 1], t[|t| - 1], open);
      TrimEndCopied(t[..|t| - 1], open);
    }
  }

  lemma {:induction false} TrimStartFixed(s: string)
    ensures TrimStart(TrimStart(s)) == TrimStart(s)
  {
    if s != "" && IsWhite(s[0]) {
      TrimStartFixed(s[1..]);
    }
  }

  lemma {:induction false} TrimEndFixed(s: string)
    ensures TrimEnd(TrimEnd(s)) == TrimEnd(s) && (TrimEnd(s) != "" ==> s != "" && TrimEnd(s)[0] == s[0])
    decreases |s|
  {
    if s != "" && IsWhite(s[|s| - 1]) {
      TrimEndFixed(s[..|s| - 1]);
    }
  }

  lemma TrimFixed(s: string)
    ensures Trim(Trim(s)) == Trim(s)
  {
    TrimStartFixed(s);
    TrimEndFixed(TrimStart(s));
    var t := Trim(s);
    if t != "" {
      assert !IsWhite(t[0]) by { StartsBlack(s); }
    }
  }

  lemma {:induction false} StartsBlack(s: string)
    requires Trim(s) != ""
    ensures !IsWhite(Trim(s)[0])
  {
    TrimEndFixed(TrimStart(s));
    NotWhiteStart(s);
  }

  lemma {:induction false} NotWhiteStart(s: string)
    ensures TrimStart(s) != "" ==> !IsWhite(TrimStart(s)[0])
  {
    if s != "" && IsWhite(s[0]) {
      NotWhiteStart(s[1..]);
    }
  }

  // ---- Round trips ----

  /** A statement as the splitter returns it; only the last may hold an unterminated literal. */
  predicate Statement(t: string, last: bool) {
    t != "" && Trim(t) == t && Copied(t, last)
  }

  predicate Statements(list: seq<string>) {
    list == [] || (Statement(list[0], |list| == 1) && Statements(list[1..]))
  }

  lemma FlushStatement(current: string, last: bool)
    requires Copied(current, last)
    ensures Flush(current) == [] || (|Flush(current)| == 1 && Statement(Flush(current)[0], last))
  {
    TrimStartCopied(current, last);
    TrimEndCopied(TrimStart(current), last);
    TrimFixed(current);
  }

  /** Every run of the splitter yields statements, whatever the input. */
  lemma {:induction false} SplitYieldsStatements(s: string, current: string)
    requires Copied(current, false) && Apart(current, s)
    ensures Statements(Split(s, current))
    decreases |s|
  {
    if s == "" {
      CopiedOpen(current);
      FlushStatement(current, true);
    } else if IsQuote(s[0]) {
      QuotedStep(s, current);
    } else if Starts(s, '-', '-') {
      CopiedJoin(current, " ", false);
      SplitYieldsStatements(AfterLine(s[2..]), current + " ");
    } else if Starts(s, '/', '*') {
      CopiedJoin(current, " ", false);
      SplitYieldsStatements(AfterBlock(s[2..]), current + " ");
    } else if s[0] == ';' {
      FlushStatement(current, false);
      SplitYieldsStatements(s[1..], "");
      ConsStatements(current, Split(s[1..], ""));
    } else {
      CopiedJoin(current, [s[0]], false);
      SplitYieldsStatements(s[1..], current + [s[0]]);
    }
  }

  lemma {:induction false} QuotedStep(s: string, current: string)
    requires Copied(current, false) && Apart(current, s) && s != "" && IsQuote(s[0])
    ensures Statements(Split(s, current))
    decreases |s|, 0
  {
    var q := s[0];
    var n := 1 + QuoteRun(s[1..], q);
    var piece := s[..n];
    assert piece[1..] == s[1..][..n - 1];
    if Terminated(s[1..], q) {
      RunAlone(s[1..], q);
      LastOfRun(s[1..], q);
      CopiedJoin(current, piece, false);
      AfterRun(s[1..], q);
      assert s[n..] == s[1..][n - 1..];
      SplitYieldsStatements(s[n..], current + piece);
    } else {
      UnterminatedRun(s[1..], q);
      assert s[n..] == "" && piece == s;
      CopiedJoin(current, piece, true);
      FlushStatement(current + piece, true);
    }
  }

  /** A terminated literal is terminated on its own, and its quote does not follow it. */
  lemma {:induction false} RunAlone(s: string, q: char)
    requires Terminated(s, q)
    ensures Terminated(s[..QuoteRun(s, q)], q) && QuoteRun(s[..QuoteRun(s, q)], q) == QuoteRun(s, q)
  {
    var t := s[..QuoteRun(s, q)];
    if Starts(s, q, q) {
      RunAlone(s[2..], q);
      assert t[2..] == s[2..][..QuoteRun(s[2..], q)];
    } else if s[0] != q {
      RunAlone(s[1..], q);
      assert t[1..] == s[1..][..QuoteRun(s[1..], q)];
    }
  }

  lemma {:induction false} AfterRun(s: string, q: char)
    requires Terminated(s, q)
    ensures QuoteRun(s, q) < |s| ==> s[QuoteRun(s, q)] != q
  {
    if Starts(s, q, q) {
      AfterRun(s[2..], q);
    } else if s[0] != q {
      AfterRun(s[1..], q);
    }
  }

  lemma ConsStatements(current: string, rest: seq<string>)
    requires Flush(current) == [] || (|Flush(current)| == 1 && Statement(Flush(current)[0], false))
    requires Statements(rest)
    ensures Statements(Flush(current) + rest)
  {
    if Flush(current) == [] {
      assert Flush(current) + rest == rest;
    } else {
      assert (Flush(current) + rest)[1..] == rest;
      if rest == [] {
        CopiedOpen(Flush(current)[0]);
      }
    }
  }

  function Joined(list: seq<string>): string {
    if list == [] then "" else if |list| == 1 then list[0] else list[0] + (";" + Joined(list[1..]))
  }

  lemma {:induction false} JoinedSplits(list: seq<string>)
    requires Statements(list)
    ensures Split(Joined(list), "") == list
  {
    if |list| == 1 {
      CopiedIsOne(list[0], "");
      assert "" + list[0] == list[0];
    } else if list != [] {
      var rest := ";" + Joined(list[1..]);
      ClosedThen(list[0], rest, "");
      assert "" + list[0] == list[0] && rest[1..] == Joined(list[1..]);
      JoinedSplits(list[1..]);
      assert list == [list[0]] + list[1..];
    }
  }

  /** Main results: the output joined with `;` splits into itself, for every input, ... */
  lemma SplitRoundTrip(sql: string)
    ensures Split(Joined(Split(sql, "")), "") == Split(sql, "")
  {
    SplitYieldsStatements(sql, "");
    JoinedSplits(Split(sql, ""));
  }

  /** ... and every returned statement splits to itself alone. */
  lemma {:induction false} EachIsOne(list: seq<string>, i: nat)
    requires Statements(list) && i < |list|
    ensures Split(list[i], "") == [list[i]]
  {
    if i == 0 {
      if |list| > 1 { CopiedOpen(list[0]); }
      CopiedIsOne(list[0], "");
      assert "" + list[0] == list[0];
    } else {
      EachIsOne(list[1..], i - 1);
    }
  }

  lemma {:induction false} LineEnds(body: string, rest: string)
    requires '\n' !in body
    ensures AfterLine(body + ("\n" + rest)) == rest
  {
    if body == "" {
      assert body + ("\n" + rest) == "\n" + rest && ("\n" + rest)[1..] == rest;
    } else {
      assert (body + ("\n" + rest))[1..] == body[1..] + ("\n" + rest);
      LineEnds(body[1..], rest);
    }
  }

  predicate ClosesIn(body: string) {
    exists i :: 0 <= i < |body| - 1 && body[i] == '*' && body[i + 1] == '/'
  }

  lemma {:induction false} BlockEnds(body: string, rest: string)
    requires !ClosesIn(body + "*")
    ensures AfterBlock(body + ("*/" + rest)) == rest
  {
    var s := body + ("*/" + rest);
    if body == "" {
      assert s == "*/" + rest && s[2..] == rest;
    } else {
      assert s[1..] == body[1..] + ("*/" + rest);
      assert forall i :: 0 <= i < |body[1..] + "*"| ==> (body[1..] + "*")[i] == (body + "*")[i + 1];
      assert s[0] == (body + "*")[0] && s[1] == (body + "*")[1];
      BlockEnds(body[1..], rest);
    }
  }

  /** A comment between statements or inside one reads as a single space. */
  lemma CommentIsSpace(t: string, body: string, rest: string, current: string)
    requires Copied(t, false) && Apart(t, "-") && Apart(t, "/")
    ensures '\n' !in body ==> Split(t + ("--" + (body + ("\n" + rest))), current) == Split(rest, (current + t) + " ")
    ensures !ClosesIn(body + "*") ==>
              Split(t + ("/*" + (body + ("*/" + rest))), current) == Split(rest, (current + t) + " ")
  {
    if '\n' !in body {
      var s := "--" + (body + ("\n" + rest));
      ClosedThen(t, s, current);
      assert s[2..] == body + ("\n" + rest);
      LineEnds(body, rest);
    }
    if !ClosesIn(body + "*") {
      var s := "/*" + (body + ("*/" + rest));
      ClosedThen(t, s, current);
      assert s[2..] == body + ("*/" + rest);
      BlockEnds(body, rest);
    }
  }

  lemma StatementSplitsToItself(sql: string, i: nat)
    requires i < |Split(sql, "")|
    ensures Split(Split(sql, "")[i], "") == [Split(sql, "")[i]]
  {
    SplitYieldsStatements(sql, "");
    EachIsOne(Split(sql, ""), i);
  }

  // ---- Character by character ----

  /** The text of a literal with every quote in it doubled. */
  function Doubled(x: string, q: char): string {
    if x == "" then "" else (if x[0] == q then [q, q] else [x[0]]) + Doubled(x[1..], q)
  }

  lemma {:induction false} DoubledRun(x: string, q: char, rest: string)
    requires rest == "" || rest[0] != q
    ensures QuoteRun(Doubled(x, q) + ([q] + rest), q) == |Doubled(x, q)| + 1
    ensures QuoteRun(Doubled(x, q), q) == |Doubled(x, q)|
  {
    var s := Doubled(x, q) + ([q] + rest);
    if x == "" {
      assert s == [q] + rest && s[1..] == rest;
    } else {
      var head, tail := if x[0] == q then [q, q] else [x[0]], Doubled(x[1..], q);
      assert s == head + (tail + ([q] + rest));
      assert s[|head|..] == tail + ([q] + rest) && (head + tail)[|head|..] == tail;
      DoubledRun(x[1..], q, rest);
    }
  }

  /** A literal in single or double quotes is kept whole, whatever it holds. */
  lemma LiteralKept(q: char, x: string, rest: string, current: string)
    requires q == '\'' || q == '"'
    requires rest == "" || rest[0] != q
    ensures var literal := [q] + (Doubled(x, q) + [q]);
            Split(literal + rest, current) == Split(rest, current + literal)
  {
    var literal := [q] + (Doubled(x, q) + [q]);
    var s := literal + rest;
    DoubledRun(x, q, rest);
    assert s[1..] == Doubled(x, q) + ([q] + rest);
    assert s[..|literal|] == literal && s[|literal|..] == rest;
  }

  /** So is one that is never closed. */
  lemma OpenLiteralKept(q: char, x: string, current: string)
    requires q == '\'' || q == '"'
    ensures Split([q] + Doubled(x, q), current) == Flush(current + ([q] + Doubled(x, q)))
  {
    var s := [q] + Doubled(x, q);
    DoubledRun(x, q, "");
    assert s[1..] == Doubled(x, q) && s[..|s|] == s;
  }

  /** Any other character that starts no comment is kept, but a semicolon ends the statement, which is dropped when it
      is blank and trimmed when it is not; so does the end of the text. */
  lemma SeparatorCuts(c: char, rest: string, current: string)
    requires c != '\'' && c != '"' && !(c == '-' && rest != "" && rest[0] == '-')
    requires !(c == '/' && rest != "" && rest[0] == '*')
    ensures c != ';' ==> Split([c] + rest, current) == Split(rest, current + [c])
    ensures c == ';' ==> Split([c] + rest, current) == Split("", current) + Split(rest, "")
    ensures Split("", current) == if AllWhite(current) then [] else [Trim(current)]
  {
    assert ([c] + rest)[1..] == rest;
    var before, after := TrimIs(current);
    if Trim(current) == "" {
      assert current == before + after;
    } else {
      assert Trim(current)[0] == current[|before|];
    }
  }
}

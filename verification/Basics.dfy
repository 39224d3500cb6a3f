/** What the models share: result types, and trimming. */
module Basics {

  datatype Option<+T> = None | Some(value: T) {

    predicate IsFailure() {
      None?
    }

    function PropagateFailure<U>(): Option<U>
      requires None?
    {
      None
    }

    function Extract(): T
      requires Some?
    {
      value
    }
  }

  datatype Result<+T, +E> = Success(value: T) | Failure(error: E) {

    predicate IsFailure() {
      Failure?
    }

    function PropagateFailure<U>(): Result<U, E>
      requires Failure?
    {
      Failure(error)
    }

    function Extract(): T
      requires Success?
    {
      value
    }
  }

  function Min(a: int, b: int): int {
    if a <= b then a else b
  }

  function Max(a: int, b: int): int {
    if a <= b then b else a
  }

  predicate IsWhite(c: char) {
    || c == ' ' || '\t' <= c <= '\r' || c == '\U{00A0}' || c == '\U{FEFF}' || c == '\U{1680}'
    || '\U{2000}' <= c <= '\U{200A}' || c == '\U{2028}' || c == '\U{2029}' || c == '\U{202F}' || c == '\U{205F}'
        || c == '\U{3000}'
  }

  function TrimStart(s: string): string {
    if s != "" && IsWhite(s[0]) then TrimStart(s[1..]) else s
  }

  function TrimEnd(s: string): string {
    if s != "" && IsWhite(s[|s| - 1]) then TrimEnd(s[..|s| - 1]) else s
  }

  function Trim(s: string): string {
    TrimEnd(TrimStart(s))
  }

  predicate AllWhite(s: string) {
    forall i :: 0 <= i < |s| ==> IsWhite(s[i])
  }

  lemma {:induction false} TrimStartIs(s: string) returns (white: string)
    ensures AllWhite(white) && s == white + TrimStart(s)
    ensures TrimStart(s) != "" ==> !IsWhite(TrimStart(s)[0])
  {
    white := "";
    if s != "" && IsWhite(s[0]) {
      var more := TrimStartIs(s[1..]);
      white := [s[0]] + more;
    }
  }

  lemma {:induction false} TrimEndIs(s: string) returns (white: string)
    ensures AllWhite(white) && s == TrimEnd(s) + white
    ensures TrimEnd(s) != "" ==> !IsWhite(TrimEnd(s)[|TrimEnd(s)| - 1])
  {
    white := "";
    if s != "" && IsWhite(s[|s| - 1]) {
      var more := TrimEndIs(s[..|s| - 1]);
      white := more + [s[|s| - 1]];
    }
  }

  /** Trimming takes the white space off both ends and nothing else. */
  lemma TrimIs(s: string) returns (before: string, after: string)
    ensures AllWhite(before) && AllWhite(after) && s == before + (Trim(s) + after)
    ensures var t := Trim(s); t != "" ==> !IsWhite(t[0]) && !IsWhite(t[|t| - 1])
  {
    before := TrimStartIs(s);
    after := TrimEndIs(TrimStart(s));
    assert Trim(s) != "" ==> Trim(s)[0] == TrimStart(s)[0];
  }

  lemma {:induction false} TrimStartOf(white: string, s: string)
    requires AllWhite(white) && s != "" && !IsWhite(s[0])
    ensures TrimStart(white + s) == s
  {
    if white == "" {
      assert white + s == s;
    } else {
      assert (white + s)[1..] == white[1..] + s;
      TrimStartOf(white[1..], s);
    }
  }

  lemma {:induction false} TrimEndOf(s: string, white: string)
    requires AllWhite(white) && s != "" && !IsWhite(s[|s| - 1])
    ensures TrimEnd(s + white) == s
  {
    if white == "" {
      assert s + white == s;
    } else {
      assert (s + white)[..|s + white| - 1] == s + white[..|white| - 1];
      TrimEndOf(s, white[..|white| - 1]);
    }
  }

  lemma TrimOf(before: string, s: string, after: string)
    requires AllWhite(before) && AllWhite(after) && s != "" && !IsWhite(s[0]) && !IsWhite(s[|s| - 1])
    ensures Trim(before + (s + after)) == s
  {
    TrimStartOf(before, s + after);
    TrimEndOf(s, after);
  }
}

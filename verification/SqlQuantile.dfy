/** Quantiles computed over the collected values of a group: they are order statistics. */
module SqlQuantile {
  import opened Basics

  function Insert(x: real, s: seq<real>): seq<real> {
    if s == [] || x <= s[0] then [x] + s else [s[0]] + Insert(x, s[1..])
  }

  /** Ascending order: what the numeric sort of the values yields. */
  function Sorted(values: seq<real>): (s: seq<real>)
    ensures |s| == |values|
  {
    if values == [] then []
    else
      var s := Sorted(values[1..]);
      InsertLength(values[0], s);
      Insert(values[0], s)
  }

  lemma {:induction false} InsertLength(x: real, s: seq<real>)
    ensures |Insert(x, s)| == |s| + 1
  {
    if s != [] && !(x <= s[0]) {
      InsertLength(x, s[1..]);
    }
  }

  function Ceil(x: real): int {
    if x == x.Floor as real then x.Floor else x.Floor + 1
  }

  predicate InRange(pos: real, n: nat) {
    n > 0 && 0.0 <= pos <= (n - 1) as real
  }

  /** Linear interpolation at a fractional position. */
  function At(s: seq<real>, pos: real): real
    requires InRange(pos, |s|)
  {
    var lo, hi := pos.Floor, Ceil(pos);
    if lo == hi then s[lo] else Between(s[lo], s[hi], pos - lo as real)
  }

  function Between(a: real, b: real, fraction: real): real {
    a + Scale(fraction, b - a)
  }

  function Scale(f: real, d: real): real {
    f * d
  }

  /** The nearest rank, clamped to the indices. */
  function Nearest(pos: real, n: nat): (k: nat)
    requires n > 0
    ensures k < n
  {
    var i := (pos + 0.5).Floor;
    if i < 0 then 0 else if i >= n then n - 1 else i
  }

  function Pick(s: seq<real>, pos: real, interpolate: bool): real
    requires InRange(pos, |s|)
  {
    if interpolate then At(s, pos) else s[Nearest(pos, |s|)]
  }

  /** level * (n - 1), for a level between 0 and 1. */
  function Position(level: real, n: nat): (pos: real)
    requires n > 0 && 0.0 <= level <= 1.0
    ensures InRange(pos, n)
  {
    ScaleWithin(level, (n - 1) as real);
    Scale(level, (n - 1) as real)
  }

  function Quantile(values: seq<real>, level: real, interpolate: bool): (q: Option<real>)
    requires 0.0 <= level <= 1.0
    ensures q.None? <==> values == []
  {
    if values == [] then None
    else Some(Pick(Sorted(values), Position(level, |values|), interpolate))
  }

  // ---- Order of the input ----

  lemma {:induction false} InsertsCommute(x: real, y: real, s: seq<real>)
    ensures Insert(x, Insert(y, s)) == Insert(y, Insert(x, s))
  {
    if s != [] && !(x <= s[0]) && !(y <= s[0]) {
      InsertsCommute(x, y, s[1..]);
      assert Insert(y, s)[1..] == Insert(y, s[1..]) && Insert(x, s)[1..] == Insert(x, s[1..]);
    } else {
      if s == [] || x <= s[0] { InsertFront(x, y, s); }
      if s == [] || y <= s[0] { InsertFront(y, x, s); }
    }
  }

  lemma InsertFront(x: real, y: real, s: seq<real>)
    requires s == [] || x <= s[0]
    ensures Insert(x, s) == [x] + s && Insert(y, [x] + s) == if y <= x then [y, x] + s else [x] + Insert(y, s)
  {
  }

  lemma {:induction false} SortedSplit(a: seq<real>, x: real, b: seq<real>)
    ensures Sorted(a + [x] + b) == Insert(x, Sorted(a + b))
  {
    var s := a + [x] + b;
    if a == [] {
      assert s[1..] == b && a + b == b;
    } else {
      assert s[1..] == a[1..] + [x] + b && (a + b)[1..] == a[1..] + b;
      SortedSplit(a[1..], x, b);
      InsertsCommute(a[0], x, Sorted(a[1..] + b));
    }
  }

  lemma {:induction false} SortedIgnoresOrder(a: seq<real>, b: seq<real>)
    requires multiset(a) == multiset(b)
    ensures Sorted(a) == Sorted(b)
    decreases |a|
  {
    if a == [] {
      EmptyOnly(b);
    } else {
      assert a[0] in multiset(b);
      var k :| 0 <= k < |b| && b[k] == a[0];
      var c := b[..k] + b[k + 1..];
      assert b == b[..k] + [a[0]] + b[k + 1..];
      assert a == [a[0]] + a[1..];
      assert multiset(b) == multiset(c) + multiset{a[0]} && multiset(a) == multiset{a[0]} + multiset(a[1..]);
      assert multiset(a[1..]) == multiset(a) - multiset{a[0]} == multiset(c);
      SortedIgnoresOrder(a[1..], c);
      SortedSplit(b[..k], a[0], b[k + 1..]);
    }
  }

  lemma EmptyOnly(b: seq<real>)
    requires multiset(b) == multiset{}
    ensures b == []
  {
    assert |multiset(b)| == |b|;
  }

  /** The order in which a group's values were collected does not matter. */
  lemma OrderIrrelevant(a: seq<real>, b: seq<real>, level: real, interpolate: bool)
    requires multiset(a) == multiset(b) && 0.0 <= level <= 1.0
    ensures Quantile(a, level, interpolate) == Quantile(b, level, interpolate)
  {
    SortedIgnoresOrder(a, b);
    SameLength(a, b);
  }

  lemma SameLength(a: seq<real>, b: seq<real>)
    requires multiset(a) == multiset(b)
    ensures |a| == |b|
  {
    assert |multiset(a)| == |a| && |multiset(b)| == |b|;
  }

  // ---- Sortedness ----

  predicate Ascending(s: seq<real>) {
    |s| < 2 || (s[0] <= s[1] && Ascending(s[1..]))
  }

  lemma {:induction false} InsertAscending(x: real, s: seq<real>)
    requires Ascending(s)
    ensures Ascending(Insert(x, s))
  {
    if s == [] || x <= s[0] {
      assert ([x] + s)[1..] == s;
    } else {
      InsertAscending(x, s[1..]);
      var t := Insert(x, s[1..]);
      assert ([s[0]] + t)[1..] == t;
    }
  }

  lemma {:induction false} SortedAscending(values: seq<real>)
    ensures Ascending(Sorted(values))
  {
    if values != [] {
      SortedAscending(values[1..]);
      InsertAscending(values[0], Sorted(values[1..]));
    }
  }

  lemma {:induction false} Ordered(s: seq<real>, i: nat, j: nat)
    requires Ascending(s) && i <= j < |s|
    ensures s[i] <= s[j]
  {
    if i > 0 {
      Ordered(s[1..], i - 1, j - 1);
    } else if j > 0 {
      Ordered(s[1..], 0, j - 1);
    }
  }

  lemma {:induction false} InsertContents(x: real, s: seq<real>, v: real)
    ensures v in Insert(x, s) <==> v == x || v in s
  {
    if s != [] && !(x <= s[0]) {
      InsertContents(x, s[1..], v);
      assert s == [s[0]] + s[1..];
    }
  }

  lemma {:induction false} SortedContents(values: seq<real>, v: real)
    ensures v in Sorted(values) <==> v in values
  {
    if values != [] {
      SortedContents(values[1..], v);
      InsertContents(values[0], Sorted(values[1..]), v);
      assert values == [values[0]] + values[1..];
    }
  }

  // ---- Levels ----

  lemma ScaleWithin(f: real, d: real)
    requires 0.0 <= f <= 1.0 && d >= 0.0
    ensures 0.0 <= Scale(f, d) <= d
  {
    assert d - f * d == (1.0 - f) * d;
  }

  lemma ScaleMonotone(f: real, g: real, d: real)
    requires f <= g && d >= 0.0
    ensures Scale(f, d) <= Scale(g, d)
  {
  }

  lemma BetweenMonotone(a: real, b: real, f: real, g: real)
    requires a <= b && f <= g
    ensures Between(a, b, f) <= Between(a, b, g)
  {
  }

  lemma AtWithin(s: seq<real>, pos: real)
    requires Ascending(s) && InRange(pos, |s|)
    ensures s[pos.Floor] <= At(s, pos) <= s[Ceil(pos)]
  {
    var lo, hi := pos.Floor, Ceil(pos);
    Ordered(s, lo, hi);
    ScaleWithin(pos - lo as real, s[hi] - s[lo]);
  }

  lemma AtMonotone(s: seq<real>, p: real, q: real)
    requires Ascending(s) && InRange(p, |s|) && InRange(q, |s|) && p <= q
    ensures At(s, p) <= At(s, q)
  {
    AtWithin(s, p);
    AtWithin(s, q);
    if Ceil(p) <= q.Floor {
      Ordered(s, Ceil(p), q.Floor);
    } else {
      var lo := p.Floor;
      assert q.Floor == lo && Ceil(p) == Ceil(q) == lo + 1;
      Ordered(s, lo, lo + 1);
      BetweenMonotone(s[lo], s[lo + 1], p - lo as real, q - lo as real);
    }
  }

  lemma PickMonotone(s: seq<real>, p: real, q: real, interpolate: bool)
    requires Ascending(s) && InRange(p, |s|) && InRange(q, |s|) && p <= q
    ensures Pick(s, p, interpolate) <= Pick(s, q, interpolate)
  {
    if interpolate {
      AtMonotone(s, p, q);
    } else {
      Ordered(s, Nearest(p, |s|), Nearest(q, |s|));
    }
  }

  /** Both forms are monotone in the level, within and across interpolation cells. */
  lemma MonotoneInLevel(values: seq<real>, low: real, high: real, interpolate: bool)
    requires values != [] && 0.0 <= low <= high <= 1.0
    ensures Quantile(values, low, interpolate).value <= Quantile(values, high, interpolate).value
  {
    SortedAscending(values);
    ScaleMonotone(low, high, (|values| - 1) as real);
    PickMonotone(Sorted(values), Position(low, |values|), Position(high, |values|), interpolate);
  }

  lemma EndLevels(d: real)
    ensures Scale(0.0, d) == 0.0 && Scale(1.0, d) == d
  {
  }

  lemma Extremes(values: seq<real>, interpolate: bool)
    requires values != []
    ensures Quantile(values, 0.0, interpolate) == Some(Sorted(values)[0])
    ensures Quantile(values, 1.0, interpolate) == Some(Sorted(values)[|values| - 1])
  {
    EndLevels((|values| - 1) as real);
  }

  /** Between the minimum, reached at level 0, and the maximum, reached at level 1. */
  lemma WithinExtremes(values: seq<real>, level: real, interpolate: bool)
    requires values != [] && 0.0 <= level <= 1.0
    ensures var least, greatest := Quantile(values, 0.0, interpolate).value, Quantile(values, 1.0, interpolate).value;
            && least <= Quantile(values, level, interpolate).value <= greatest
            && least in values && greatest in values && forall v :: v in values ==> least <= v <= greatest
  {
    var s := Sorted(values);
    MonotoneInLevel(values, 0.0, level, interpolate);
    MonotoneInLevel(values, level, 1.0, interpolate);
    Extremes(values, interpolate);
    SortedAscending(values);
    SortedContents(values, s[0]);
    SortedContents(values, s[|s| - 1]);
    forall v | v in values
      ensures s[0] <= v <= s[|s| - 1]
    {
      SortedContents(values, v);
      var k :| 0 <= k < |s| && s[k] == v;
      Ordered(s, 0, k);
      Ordered(s, k, |s| - 1);
    }
  }

  // ---- The values themselves ----

  /** `s` holds the same values in ascending order. */
  ghost predicate Ascends(values: seq<real>, s: seq<real>) {
    multiset(s) == multiset(values) && forall i, j :: 0 <= i < j < |s| ==> s[i] <= s[j]
  }

  lemma {:induction false} AscendsAscending(s: seq<real>)
    requires forall i, j :: 0 <= i < j < |s| ==> s[i] <= s[j]
    ensures Ascending(s) && Sorted(s) == s
  {
    if s != [] {
      AscendsAscending(s[1..]);
      assert s == [s[0]] + s[1..];
    }
  }

  lemma SortedWhen(values: seq<real>, s: seq<real>)
    requires Ascends(values, s)
    ensures Sorted(values) == s && |s| == |values|
  {
    SameLength(values, s);
    SortedIgnoresOrder(values, s);
    AscendsAscending(s);
  }

  /** Positions are counted from 0 to n - 1. */
  lemma PositionIs(level: real, n: nat, pos: real)
    requires n > 0 && 0.0 <= level <= 1.0 && level * (n - 1) as real == pos
    ensures Position(level, n) == pos && InRange(pos, n)
  {
  }

  lemma PickedFrom(values: seq<real>, s: seq<real>, level: real, pos: real, interpolate: bool)
    requires Ascends(values, s) && values != [] && 0.0 <= level <= 1.0 && level * (|values| - 1) as real == pos
    ensures |s| == |values| && InRange(pos, |s|)
    ensures Quantile(values, level, interpolate) == Some(Pick(s, pos, interpolate))
  {
    PositionIs(level, |values|, pos);
    SortedWhen(values, s);
    QuantileIs(values, s, level, pos, interpolate);
  }

  lemma QuantileIs(values: seq<real>, s: seq<real>, level: real, pos: real, interpolate: bool)
    requires Sorted(values) == s && values != [] && 0.0 <= level <= 1.0 && Position(level, |values|) == pos
    ensures InRange(pos, |s|) && Quantile(values, level, interpolate) == Some(Pick(s, pos, interpolate))
  {
  }

  lemma SameMembers(values: seq<real>, s: seq<real>, k: nat)
    requires multiset(s) == multiset(values) && k < |s|
    ensures s[k] in values
  {
    assert s[k] in multiset(s);
  }

  lemma BetweenIs(a: real, b: real, f: real, v: real)
    requires v == a + f * (b - a)
    ensures Between(a, b, f) == v
  {
  }

  lemma AtIs(s: seq<real>, pos: real, k: nat, v: real)
    requires InRange(pos, |s|) && k as real <= pos < (k + 1) as real
    requires if pos == k as real then v == s[k] else k + 1 < |s| && v == s[k] + (pos - k as real) * (s[k + 1] - s[k])
    ensures At(s, pos) == v
  {
    assert pos.Floor == k;
    if pos != k as real {
      BetweenIs(s[k], s[k + 1], pos - k as real, v);
    }
  }

  /** The interpolating form: at a whole position the value there, and between two the same part of the way from the
      one to the other. */
  lemma InterpolatedIs(values: seq<real>, s: seq<real>, level: real, pos: real, k: nat, v: real)
    requires Ascends(values, s) && values != [] && 0.0 <= level <= 1.0 && level * (|values| - 1) as real == pos
    requires k < |s| && k as real <= pos < (k + 1) as real
    requires if pos == k as real then v == s[k] else k + 1 < |s| && v == s[k] + (pos - k as real) * (s[k + 1] - s[k])
    ensures Quantile(values, level, true) == Some(v)
  {
    PickedFrom(values, s, level, pos, true);
    AtIs(s, pos, k, v);
  }

  lemma Halfway(a: real, b: real)
    ensures a + 0.5 * (b - a) == (a + b) / 2.0
  {
  }

  /** The median of two values lies halfway. */
  lemma MedianOfTwo(a: real, b: real)
    ensures Quantile([a, b], 0.5, true) == Some((a + b) / 2.0)
  {
    var low, high := if a <= b then a else b, if a <= b then b else a;
    var s := [low, high];
    assert multiset(s) == multiset([a, b]);
    Halfway(low, high);
    InterpolatedIs([a, b], s, 0.5, 0.5, 0, (low + high) / 2.0);
  }

  lemma NearestIs(pos: real, n: nat)
    requires InRange(pos, n)
    ensures Nearest(pos, n) as real - 0.5 <= pos < Nearest(pos, n) as real + 0.5
  {
  }

  /** The non-interpolating form is the input value of nearest rank, halves up. */
  lemma ExactIsElement(values: seq<real>, s: seq<real>, level: real, pos: real) returns (k: nat)
    requires Ascends(values, s) && values != [] && 0.0 <= level <= 1.0 && level * (|values| - 1) as real == pos
    ensures k < |s| == |values| && Quantile(values, level, false) == Some(s[k]) && s[k] in values
    ensures k as real - 0.5 <= pos < k as real + 0.5
  {
    PickedFrom(values, s, level, pos, false);
    NearestIs(pos, |s|);
    k := Nearest(pos, |s|);
    SameMembers(values, s, k);
  }
}

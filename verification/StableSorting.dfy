/** Stable sorting by a comparator, and what it has to do with filtering and appending. */
module StableSorting {

  type Comparator<!T> = (T, T) -> int

  /** Negative, zero and positive mean before, tied and after. */
  predicate Consistent<T>(cmp: Comparator<T>, a: T, b: T, c: T) {
    cmp(a, a) == 0 && (cmp(a, b) < 0 <==> cmp(b, a) > 0) && (cmp(a, b) <= 0 && cmp(b, c) <= 0 ==> cmp(a, c) <= 0)
  }

  ghost predicate WeakOrder<T(!new)>(cmp: Comparator<T>) {
    forall a, b, c :: Consistent(cmp, a, b, c)
  }

  function Insert<T>(cmp: Comparator<T>, sorted: seq<T>, x: T): seq<T> {
    if sorted == [] then [x]
    else
      var last := sorted[|sorted| - 1];
      if cmp(last, x) <= 0 then sorted + [x] else Insert(cmp, sorted[..|sorted| - 1], x) + [last]
  }

  function StableSort<T>(cmp: Comparator<T>, rs: seq<T>): seq<T> {
    if rs == [] then [] else Insert(cmp, StableSort(cmp, rs[..|rs| - 1]), rs[|rs| - 1])
  }

  function Filter<T>(rs: seq<T>, keep: T -> bool): seq<T> {
    if rs == [] then []
    else
      var front := Filter(rs[..|rs| - 1], keep);
      if keep(rs[|rs| - 1]) then front + [rs[|rs| - 1]] else front
  }

  ghost predicate Ordered<T>(cmp: Comparator<T>, rs: seq<T>) {
    forall i, j :: 0 <= i < j < |rs| ==> cmp(rs[i], rs[j]) <= 0
  }

  lemma Push<T>(rs: seq<T>, x: T)
    ensures (rs + [x])[..|rs + [x]| - 1] == rs && (rs + [x])[|rs + [x]| - 1] == x
  {
  }

  lemma {:induction false} InsertMembers<T>(cmp: Comparator<T>, rs: seq<T>, x: T)
    ensures multiset(Insert(cmp, rs, x)) == multiset(rs) + multiset{x}
  {
    if rs != [] {
      assert rs == rs[..|rs| - 1] + [rs[|rs| - 1]];
      InsertMembers(cmp, rs[..|rs| - 1], x);
    }
  }

  lemma BelowLast<T(!new)>(cmp: Comparator<T>, rs: seq<T>, x: T)
    requires WeakOrder(cmp) && Ordered(cmp, rs) && rs != [] && cmp(rs[|rs| - 1], x) <= 0
    ensures forall e :: e in multiset(rs) ==> cmp(e, x) <= 0
  {
    var last := rs[|rs| - 1];
    forall e | e in multiset(rs) ensures cmp(e, x) <= 0 {
      var i :| 0 <= i < |rs| && rs[i] == e;
      assert Consistent(cmp, e, last, x);
    }
  }

  lemma OrderedPush<T>(cmp: Comparator<T>, rs: seq<T>, x: T)
    requires Ordered(cmp, rs) && forall e :: e in multiset(rs) ==> cmp(e, x) <= 0
    ensures Ordered(cmp, rs + [x])
  {
    forall i | 0 <= i < |rs| ensures cmp(rs[i], x) <= 0 {
      assert rs[i] in multiset(rs);
    }
  }

  lemma {:induction false} InsertIsOrdered<T(!new)>(cmp: Comparator<T>, rs: seq<T>, x: T)
    requires WeakOrder(cmp) && Ordered(cmp, rs)
    ensures Ordered(cmp, Insert(cmp, rs, x))
  {
    if rs != [] {
      var front, last := rs[..|rs| - 1], rs[|rs| - 1];
      assert rs == front + [last];
      if cmp(last, x) <= 0 {
        BelowLast(cmp, rs, x);
        OrderedPush(cmp, rs, x);
      } else {
        InsertIsOrdered(cmp, front, x);
        InsertMembers(cmp, front, x);
        assert Consistent(cmp, last, x, last) && Consistent(cmp, x, last, x);
        BelowLast(cmp, rs, last);
        OrderedPush(cmp, Insert(cmp, front, x), last);
      }
    }
  }

  lemma {:induction false} FilterMembers<T>(rs: seq<T>, keep: T -> bool)
    ensures forall e :: e in multiset(Filter(rs, keep)) <==> e in multiset(rs) && keep(e)
  {
    if rs != [] {
      FilterMembers(rs[..|rs| - 1], keep);
      assert rs == rs[..|rs| - 1] + [rs[|rs| - 1]];
    }
  }

  lemma {:induction false} FilterAt<T>(rs: seq<T>, keep: T -> bool, i: nat) returns (p: nat)
    requires i < |Filter(rs, keep)|
    ensures p < |rs| && rs[p] == Filter(rs, keep)[i] && keep(rs[p])
  {
    var front := rs[..|rs| - 1];
    if i < |Filter(front, keep)| {
      p := FilterAt(front, keep, i);
    } else {
      p := |rs| - 1;
    }
  }

  /** Filtering keeps the order of what it keeps. */
  lemma {:induction false} FilterPair<T>(rs: seq<T>, keep: T -> bool, i: nat, j: nat) returns (p: nat, q: nat)
    requires i < j < |Filter(rs, keep)|
    ensures p < q < |rs| && rs[p] == Filter(rs, keep)[i] && rs[q] == Filter(rs, keep)[j]
  {
    var front := rs[..|rs| - 1];
    if j < |Filter(front, keep)| {
      p, q := FilterPair(front, keep, i, j);
    } else {
      p := FilterAt(front, keep, i);
      q := |rs| - 1;
    }
  }

  /** Inserting before filtering is inserting after. */
  lemma {:induction false} FilterInsert<T(!new)>(cmp: Comparator<T>, rs: seq<T>, x: T, keep: T -> bool)
    requires WeakOrder(cmp) && Ordered(cmp, rs)
    ensures Filter(Insert(cmp, rs, x), keep) == if keep(x) then Insert(cmp, Filter(rs, keep), x) else Filter(rs, keep)
  {
    if rs == [] {
      Push([], x);
      assert [] + [x] == [x];
    } else {
      var front, last := rs[..|rs| - 1], rs[|rs| - 1];
      if cmp(last, x) <= 0 {
        Push(rs, x);
        BelowLast(cmp, rs, x);
        InsertLast(cmp, rs, x, keep);
      } else {
        FilterInsert(cmp, front, x, keep);
        Push(Insert(cmp, front, x), last);
        Push(Filter(front, keep), last);
      }
    }
  }

  lemma InsertLast<T>(cmp: Comparator<T>, rs: seq<T>, x: T, keep: T -> bool)
    requires forall e :: e in multiset(rs) && keep(e) ==> cmp(e, x) <= 0
    ensures Insert(cmp, Filter(rs, keep), x) == Filter(rs, keep) + [x]
  {
    var kept := Filter(rs, keep);
    FilterMembers(rs, keep);
    if kept == [] {
      assert kept + [x] == [x];
    } else {
      assert kept[|kept| - 1] in multiset(kept);
    }
  }

  function TiesWith<T>(cmp: Comparator<T>, e: T): T -> bool {
    o => cmp(o, e) == 0
  }

  /** What a stable sort promises: the same entries, in order, those that tie as they stood. */
  lemma {:induction false} StableSortIs<T(!new)>(cmp: Comparator<T>, rs: seq<T>)
    requires WeakOrder(cmp)
    ensures Ordered(cmp, StableSort(cmp, rs)) && multiset(StableSort(cmp, rs)) == multiset(rs)
    ensures forall e :: Filter(StableSort(cmp, rs), TiesWith(cmp, e)) == Filter(rs, TiesWith(cmp, e))
  {
    if rs != [] {
      var front, last := rs[..|rs| - 1], rs[|rs| - 1];
      assert rs == front + [last];
      StableSortIs(cmp, front);
      var sorted := StableSort(cmp, front);
      InsertIsOrdered(cmp, sorted, last);
      InsertMembers(cmp, sorted, last);
      forall e ensures Filter(StableSort(cmp, rs), TiesWith(cmp, e)) == Filter(rs, TiesWith(cmp, e)) {
        FilterInsert(cmp, sorted, last, TiesWith(cmp, e));
        if cmp(last, e) == 0 {
          TiedBelow(cmp, e, last);
          InsertLast(cmp, sorted, last, TiesWith(cmp, e));
        }
      }
    }
  }

  lemma TiedBelow<T(!new)>(cmp: Comparator<T>, e: T, x: T)
    requires WeakOrder(cmp) && cmp(x, e) == 0
    ensures forall o :: TiesWith(cmp, e)(o) ==> cmp(o, x) <= 0
  {
    forall o | TiesWith(cmp, e)(o) ensures cmp(o, x) <= 0 {
      assert Consistent(cmp, o, e, x) && Consistent(cmp, x, e, x);
    }
  }

  lemma {:induction false} SortOrdered<T>(cmp: Comparator<T>, rs: seq<T>)
    requires Ordered(cmp, rs)
    ensures StableSort(cmp, rs) == rs
  {
    if |rs| > 0 {
      var front := rs[..|rs| - 1];
      SortOrdered(cmp, front);
      assert front != [] ==> cmp(rs[|rs| - 2], rs[|rs| - 1]) <= 0;
      assert front + [rs[|rs| - 1]] == rs;
    }
  }

  /** Sorting commutes with filtering. */
  lemma {:induction false} SortFiltered<T(!new)>(cmp: Comparator<T>, rs: seq<T>, keep: T -> bool)
    requires WeakOrder(cmp)
    ensures StableSort(cmp, Filter(rs, keep)) == Filter(StableSort(cmp, rs), keep)
  {
    if rs != [] {
      var front, last := rs[..|rs| - 1], rs[|rs| - 1];
      SortFiltered(cmp, front, keep);
      StableSortIs(cmp, front);
      FilterInsert(cmp, StableSort(cmp, front), last, keep);
      Push(Filter(front, keep), last);
    }
  }

  /** Two tables that look the same once sorted. */
  ghost predicate Alike<T>(cmp: Comparator<T>, a: seq<T>, b: seq<T>) {
    StableSort(cmp, a) == StableSort(cmp, b)
  }

  /** Sorting now or later, appending and dropping entries in between: the sorted view is the same. */
  lemma AlikeKeeps<T(!new)>(cmp: Comparator<T>, a: seq<T>, b: seq<T>, x: T, keep: T -> bool)
    requires WeakOrder(cmp) && Alike(cmp, a, b)
    ensures Alike(cmp, a + [x], b + [x])
    ensures Alike(cmp, Filter(a, keep), Filter(b, keep))
    ensures Alike(cmp, StableSort(cmp, a), b)
    ensures multiset(a) == multiset(b)
  {
    Push(a, x);
    Push(b, x);
    SortFiltered(cmp, a, keep);
    SortFiltered(cmp, b, keep);
    StableSortIs(cmp, a);
    StableSortIs(cmp, b);
    SortOrdered(cmp, StableSort(cmp, a));
  }
}

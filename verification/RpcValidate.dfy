/** Validation of RPC arguments: a depth-first walk over an object graph that may share objects and have cycles. */
module RpcValidate {
  import opened Basics
  import SqlNumbers

  /** Symbols are never allowed; other primitives and functions always are. */
  datatype Value = Plain | Symbol | Function | Ref(at: nat)

  /** What the tests find an object to be, the first that applies. */
  datatype Object =
    | Unsupported(kind: string)
    | Leaf
    | MapOf(entries: seq<(Value, Value)>)
    | SetOf(items: seq<Value>)
    | ArrayOf(items: seq<Value>)
    | Record(fields: seq<(string, Value)>)

  type Heap = seq<Object>

  /** `v` stands in `o` at the place that `mark` names: a key or value of an entry of a map, an item of a set or an
      array, the value of a field. */
  ghost predicate Place(o: Object, mark: string, v: Value) {
    match o
    case MapOf(entries) =>
      exists i :: 0 <= i < |entries|
        && ((v == entries[i].0 && mark == ".Map.key" + ("(" + SqlNumbers.NatText(i) + ")"))
            || (v == entries[i].1 && mark == ".Map.value" + ("(" + SqlNumbers.NatText(i) + ")")))
    case SetOf(items) =>
      exists i :: 0 <= i < |items| && v == items[i] && mark == ".Set" + ("(" + SqlNumbers.NatText(i) + ")")
    case ArrayOf(items) => exists i :: 0 <= i < |items| && v == items[i] && mark == "[" + SqlNumbers.NatText(i) + "]"
    case Record(fields) => exists i :: 0 <= i < |fields| && v == fields[i].1 && mark == "." + fields[i].0
    case _ => false
  }

  /** `v` is a part of object `o`. */
  ghost predicate Part(heap: Heap, o: nat, v: Value) {
    o < |heap| && exists mark :: Place(heap[o], mark, v)
  }

  /** Where the walk met a value that cannot be sent. */
  datatype Error = Error(path: string, culprit: Value)

  datatype Visited = Visited(errors: seq<Error>, seen: set<nat>)

  function Num(i: nat): string {
    "(" + SqlNumbers.NatText(i) + ")"
  }

  function MapStep(entries: seq<(Value, Value)>, k: nat): (string, Value)
    requires k < 2 * |entries|
  {
    if k % 2 == 0 then (".Map.key" + Num(k / 2), entries[k / 2].0) else (".Map.value" + Num(k / 2), entries[k / 2].1)
  }

  /** The parts of an object in the order they are visited, each with what it adds to the path. */
  function Steps(o: Object): seq<(string, Value)> {
    match o
    case MapOf(entries) => seq(2 * |entries|, k requires 0 <= k < 2 * |entries| => MapStep(entries, k))
    case SetOf(items) => seq(|items|, i requires 0 <= i < |items| => (".Set" + Num(i), items[i]))
    case ArrayOf(items) => seq(|items|, i requires 0 <= i < |items| => ("[" + SqlNumbers.NatText(i) + "]", items[i]))
    case Record(fields) => seq(|fields|, i requires 0 <= i < |fields| => ("." + fields[i].0, fields[i].1))
    case _ => []
  }

  function Below(n: nat): (r: set<nat>)
    ensures forall o: nat :: o in r <==> o < n
  {
    if n == 0 then {} else Below(n - 1) + {n - 1}
  }

  predicate InHeap(heap: Heap, v: Value) {
    v.Ref? ==> v.at < |heap|
  }

  predicate Intact(heap: Heap, o: nat)
    requires o < |heap|
  {
    match heap[o]
    case MapOf(entries) => forall i :: 0 <= i < |entries| ==> InHeap(heap, entries[i].0) && InHeap(heap, entries[i].1)
    case SetOf(items) => forall i :: 0 <= i < |items| ==> InHeap(heap, items[i])
    case ArrayOf(items) => forall i :: 0 <= i < |items| ==> InHeap(heap, items[i])
    case Record(fields) => forall i :: 0 <= i < |fields| ==> InHeap(heap, fields[i].1)
    case _ => true
  }

  /** No dangling references. */
  ghost predicate WellFormed(heap: Heap) {
    forall o :: 0 <= o < |heap| ==> Intact(heap, o)
  }

  /** The walk as a function that hands the set of seen objects on. */
  function Visit(heap: Heap, v: Value, path: string, seen: set<nat>): (r: Visited)
    ensures seen <= r.seen
    decreases Below(|heap|) - seen, 0
  {
    match v
    case Plain => Visited([], seen)
    case Function => Visited([], seen)
    case Symbol => Visited([Error(path, v)], seen)
    case Ref(o) =>
      if o in seen || o >= |heap| then Visited([], seen)
      else if heap[o].Unsupported? then Visited([Error(path, v)], seen + {o})
      else VisitAll(heap, Steps(heap[o]), path, seen + {o})
  }

  function VisitAll(heap: Heap, steps: seq<(string, Value)>, path: string, seen: set<nat>): (r: Visited)
    ensures seen <= r.seen
    decreases Below(|heap|) - seen, |steps|
  {
    if steps == [] then Visited([], seen)
    else
      var first := Visit(heap, steps[0].1, path + steps[0].0, seen);
      var rest := VisitAll(heap, steps[1..], path, first.seen);
      Visited(first.errors + rest.errors, rest.seen)
  }

  /** The set of seen objects, shared by the whole walk. */
  class WeakSet {
    var objects: set<nat>

    constructor ()
      ensures objects == {}
    {
      objects := {};
    }
  }

  method Validate(heap: Heap, v: Value, path: string, seen: WeakSet) returns (errors: seq<Error>)
    requires WellFormed(heap) && InHeap(heap, v)
    modifies seen
    ensures Visited(errors, seen.objects) == Visit(heap, v, path, old(seen.objects))
    decreases Below(|heap|) - seen.objects, 0
  {
    match v
    case Plain => errors := [];
    case Function => errors := [];
    case Symbol => errors := [Error(path, v)];
    case Ref(o) =>
      if o in seen.objects {
        return [];
      }
      assert o in Below(|heap|) - seen.objects;
      seen.objects := seen.objects + {o};
      match heap[o]
      case Unsupported(_) => errors := [Error(path, v)];
      case Leaf => errors := [];
      case MapOf(entries) => errors := ValidateMap(heap, o, path, seen);
      case SetOf(items) => errors := ValidateSet(heap, o, path, seen);
      case ArrayOf(items) => errors := ValidateArray(heap, o, path, seen);
      case Record(fields) => errors := ValidateRecord(heap, o, path, seen);
  }

  lemma FirstStep(heap: Heap, steps: seq<(string, Value)>, path: string, seen: set<nat>, errors: seq<Error>)
    requires steps != []
    ensures var first := Visit(heap, steps[0].1, path + steps[0].0, seen);
            Then(errors, VisitAll(heap, steps, path, seen))
            == Then(errors + first.errors, VisitAll(heap, steps[1..], path, first.seen))
  {
    var first := Visit(heap, steps[0].1, path + steps[0].0, seen);
    var rest := VisitAll(heap, steps[1..], path, first.seen);
    assert errors + (first.errors + rest.errors) == (errors + first.errors) + rest.errors;
  }

  lemma NextStep(heap: Heap, steps: seq<(string, Value)>, i: nat, path: string, seen: set<nat>, errors: seq<Error>)
    requires i < |steps|
    ensures var first := Visit(heap, steps[i].1, path + steps[i].0, seen);
            Then(errors, VisitAll(heap, steps[i..], path, seen))
            == Then(errors + first.errors, VisitAll(heap, steps[i + 1..], path, first.seen))
  {
    var left := steps[i..];
    assert left[0] == steps[i] && left[1..] == steps[i + 1..];
    FirstStep(heap, left, path, seen, errors);
  }

  lemma EntrySteps(o: Object, i: nat)
    requires o.MapOf? && i < |o.entries|
    ensures |Steps(o)| == 2 * |o.entries|
    ensures Steps(o)[2 * i] == (".Map.key" + Num(i), o.entries[i].0)
    ensures Steps(o)[2 * i + 1] == (".Map.value" + Num(i), o.entries[i].1)
  {
  }

  method ValidateMap(heap: Heap, o: nat, path: string, seen: WeakSet) returns (errors: seq<Error>)
    requires WellFormed(heap) && o < |heap| && heap[o].MapOf?
    modifies seen
    ensures Visited(errors, seen.objects) == VisitAll(heap, Steps(heap[o]), path, old(seen.objects))
    decreases Below(|heap|) - seen.objects, 3
  {
    errors := [];
    var entries := heap[o].entries;
    ghost var steps, at := Steps(heap[o]), 0;
    assert steps[0..] == steps && |steps| == 2 * |entries|;
    for i := 0 to |entries|
      invariant old(seen.objects) <= seen.objects && at == 2 * i <= |steps|
      invariant VisitAll(heap, steps, path, old(seen.objects)) ==
                Then(errors, VisitAll(heap, steps[at..], path, seen.objects))
    {
      var more := ValidateEntry(heap, o, i, path, seen, errors);
      errors, at := errors + more, at + 2;
    }
  }

  lemma EntryAt(heap: Heap, o: nat, i: nat)
    requires WellFormed(heap) && o < |heap| && heap[o].MapOf? && i < |heap[o].entries|
    ensures InHeap(heap, heap[o].entries[i].0) && InHeap(heap, heap[o].entries[i].1)
    ensures var steps := Steps(heap[o]);
            && |steps| == 2 * |heap[o].entries|
            && steps[2 * i] == (".Map.key" + Num(i), heap[o].entries[i].0)
            && steps[2 * i + 1] == (".Map.value" + Num(i), heap[o].entries[i].1)
  {
    assert Intact(heap, o);
    EntrySteps(heap[o], i);
  }

  lemma EntryPlace(o: Object, k: nat)
    requires o.MapOf? && k < |o.entries|
    ensures Place(o, ".Map.key" + Num(k), o.entries[k].0) && Place(o, ".Map.value" + Num(k), o.entries[k].1)
  {
  }

  /** The steps lead to the places of an object ... */
  lemma StepPlace(o: Object, i: nat)
    requires i < |Steps(o)|
    ensures Place(o, Steps(o)[i].0, Steps(o)[i].1)
  {
    if o.MapOf? {
      EntrySteps(o, i / 2);
      EntryPlace(o, i / 2);
      assert i == 2 * (i / 2) || i == 2 * (i / 2) + 1;
    }
  }

  /** ... and to all of them. */
  lemma PlaceStep(o: Object, mark: string, v: Value) returns (i: nat)
    requires Place(o, mark, v)
    ensures i < |Steps(o)| && Steps(o)[i] == (mark, v)
  {
    match o
    case MapOf(entries) =>
      var k: nat :| 0 <= k < |entries|
        && ((v == entries[k].0 && mark == ".Map.key" + ("(" + SqlNumbers.NatText(k) + ")"))
            || (v == entries[k].1 && mark == ".Map.value" + ("(" + SqlNumbers.NatText(k) + ")")));
      EntrySteps(o, k);
      i := if Steps(o)[2 * k] == (mark, v) then 2 * k else 2 * k + 1;
    case SetOf(items) =>
      i :| 0 <= i < |items| && v == items[i] && mark == ".Set" + ("(" + SqlNumbers.NatText(i) + ")");
    case ArrayOf(items) =>
      i :| 0 <= i < |items| && v == items[i] && mark == "[" + SqlNumbers.NatText(i) + "]";
    case Record(fields) =>
      i :| 0 <= i < |fields| && v == fields[i].1 && mark == "." + fields[i].0;
  }

  lemma InStep(heap: Heap, o: nat, i: nat)
    requires WellFormed(heap) && o < |heap| && i < |Steps(heap[o])|
    ensures InHeap(heap, Steps(heap[o])[i].1) && Part(heap, o, Steps(heap[o])[i].1)
  {
    StepPlace(heap[o], i);
    assert Intact(heap, o);
  }

  /** The values a walk steps to are the parts of the object. */
  lemma StepsAreParts(heap: Heap, o: nat)
    requires WellFormed(heap) && o < |heap|
    ensures forall i :: 0 <= i < |Steps(heap[o])| ==>
              InHeap(heap, Steps(heap[o])[i].1) && Part(heap, o, Steps(heap[o])[i].1)
    ensures forall v :: Part(heap, o, v) ==> exists i :: 0 <= i < |Steps(heap[o])| && Steps(heap[o])[i].1 == v
  {
    forall i | 0 <= i < |Steps(heap[o])|
      ensures InHeap(heap, Steps(heap[o])[i].1) && Part(heap, o, Steps(heap[o])[i].1)
    {
      InStep(heap, o, i);
    }
    forall v | Part(heap, o, v) ensures exists i :: 0 <= i < |Steps(heap[o])| && Steps(heap[o])[i].1 == v {
      var mark :| Place(heap[o], mark, v);
      var i := PlaceStep(heap[o], mark, v);
    }
  }

  lemma TwoSteps(heap: Heap, steps: seq<(string, Value)>, i: nat, path: string, seen: set<nat>, first: Visited,
                 second: Visited, before: seq<Error>)
    requires i + 1 < |steps| && first == Visit(heap, steps[i].1, path + steps[i].0, seen)
    requires second == Visit(heap, steps[i + 1].1, path + steps[i + 1].0, first.seen)
    ensures Then(before, VisitAll(heap, steps[i..], path, seen))
            == Then(before + (first.errors + second.errors), VisitAll(heap, steps[i + 2..], path, second.seen))
  {
    NextStep(heap, steps, i, path, seen, before);
    NextStep(heap, steps, i + 1, path, first.seen, before + first.errors);
    assert before + first.errors + second.errors == before + (first.errors + second.errors);
  }

  method ValidateEntry(heap: Heap, o: nat, i: nat, path: string, seen: WeakSet, ghost before: seq<Error>)
    returns (errors: seq<Error>)
    requires WellFormed(heap) && o < |heap| && heap[o].MapOf? && i < |heap[o].entries|
    requires |Steps(heap[o])| == 2 * |heap[o].entries|
    modifies seen
    ensures old(seen.objects) <= seen.objects
    ensures var steps := Steps(heap[o]);
            Then(before, VisitAll(heap, steps[2 * i..], path, old(seen.objects)))
            == Then(before + errors, VisitAll(heap, steps[2 * i + 2..], path, seen.objects))
    decreases Below(|heap|) - seen.objects, 2
  {
    var (k, v) := heap[o].entries[i];
    EntryAt(heap, o, i);
    errors := ValidatePair(heap, Steps(heap[o]), 2 * i, k, v, ".Map.key" + Num(i), ".Map.value" + Num(i), path, seen,
        before);
  }

  method ValidatePair(
    heap: Heap, ghost steps: seq<(string, Value)>, ghost i: nat, k: Value, v: Value, keyPath: string, valuePath: string,
    path: string, seen: WeakSet, ghost before: seq<Error>) returns (errors: seq<Error>)
    requires WellFormed(heap) && InHeap(heap, k) && InHeap(heap, v)
    requires i + 1 < |steps| && steps[i] == (keyPath, k) && steps[i + 1] == (valuePath, v)
    modifies seen
    ensures old(seen.objects) <= seen.objects
    ensures Then(before, VisitAll(heap, steps[i..], path, old(seen.objects)))
            == Then(before + errors, VisitAll(heap, steps[i + 2..], path, seen.objects))
    decreases Below(|heap|) - seen.objects, 1
  {
    var first := Validate(heap, k, path + keyPath, seen);
    ghost var between := seen.objects;
    var second := Validate(heap, v, path + valuePath, seen);
    TwoSteps(heap, steps, i, path, old(seen.objects), Visited(first, between), Visited(second, seen.objects), before);
    errors := first + second;
  }

  method ValidateSet(heap: Heap, o: nat, path: string, seen: WeakSet) returns (errors: seq<Error>)
    requires WellFormed(heap) && o < |heap| && heap[o].SetOf?
    modifies seen
    ensures Visited(errors, seen.objects) == VisitAll(heap, Steps(heap[o]), path, old(seen.objects))
    decreases Below(|heap|) - seen.objects, 1
  {
    errors := [];
    var items := heap[o].items;
    assert Intact(heap, o);
    ghost var steps := Steps(heap[o]);
    assert steps[0..] == steps;
    for i := 0 to |items|
      invariant old(seen.objects) <= seen.objects
      invariant VisitAll(heap, steps, path, old(seen.objects)) ==
                Then(errors, VisitAll(heap, steps[i..], path, seen.objects))
    {
      assert steps[i] == (".Set" + Num(i), items[i]);
      NextStep(heap, steps, i, path, seen.objects, errors);
      var more := Validate(heap, items[i], path + (".Set" + Num(i)), seen);
      errors := errors + more;
    }
  }

  method ValidateArray(heap: Heap, o: nat, path: string, seen: WeakSet) returns (errors: seq<Error>)
    requires WellFormed(heap) && o < |heap| && heap[o].ArrayOf?
    modifies seen
    ensures Visited(errors, seen.objects) == VisitAll(heap, Steps(heap[o]), path, old(seen.objects))
    decreases Below(|heap|) - seen.objects, 1
  {
    errors := [];
    var items := heap[o].items;
    assert Intact(heap, o);
    ghost var steps := Steps(heap[o]);
    assert steps[0..] == steps;
    for i := 0 to |items|
      invariant old(seen.objects) <= seen.objects
      invariant VisitAll(heap, steps, path, old(seen.objects)) ==
                Then(errors, VisitAll(heap, steps[i..], path, seen.objects))
    {
      assert steps[i] == ("[" + SqlNumbers.NatText(i) + "]", items[i]);
      NextStep(heap, steps, i, path, seen.objects, errors);
      var more := Validate(heap, items[i], path + ("[" + SqlNumbers.NatText(i) + "]"), seen);
      errors := errors + more;
    }
  }

  method ValidateRecord(heap: Heap, o: nat, path: string, seen: WeakSet) returns (errors: seq<Error>)
    requires WellFormed(heap) && o < |heap| && heap[o].Record?
    modifies seen
    ensures Visited(errors, seen.objects) == VisitAll(heap, Steps(heap[o]), path, old(seen.objects))
    decreases Below(|heap|) - seen.objects, 1
  {
    errors := [];
    var fields := heap[o].fields;
    assert Intact(heap, o);
    ghost var steps := Steps(heap[o]);
    assert steps[0..] == steps;
    for i := 0 to |fields|
      invariant old(seen.objects) <= seen.objects
      invariant VisitAll(heap, steps, path, old(seen.objects)) ==
                Then(errors, VisitAll(heap, steps[i..], path, seen.objects))
    {
      assert steps[i] == ("." + fields[i].0, fields[i].1);
      NextStep(heap, steps, i, path, seen.objects, errors);
      var more := Validate(heap, fields[i].1, path + ("." + fields[i].0), seen);
      errors := errors + more;
    }
  }

  function Then(errors: seq<Error>, rest: Visited): Visited {
    Visited(errors + rest.errors, rest.seen)
  }

  // ---- What is reported ----

  ghost predicate Walk(heap: Heap, walk: seq<Value>) {
    walk != [] && forall i :: 0 <= i < |walk| - 1 ==> walk[i].Ref? && Part(heap, walk[i].at, walk[i + 1])
  }

  /** `v` can be reached from `root` through maps, sets, arrays and plain objects. */
  ghost predicate Reaches(heap: Heap, root: Value, v: Value) {
    exists walk :: Walk(heap, walk) && walk[0] == root && walk[|walk| - 1] == v
  }

  predicate Bad(heap: Heap, v: Value) {
    v.Symbol? || (v.Ref? && v.at < |heap| && heap[v.at].Unsupported?)
  }

  function Times(errors: seq<Error>, v: Value): nat {
    if errors == [] then 0 else Times(errors[1..], v) + if errors[0].culprit == v then 1 else 0
  }

  lemma {:induction false} TimesOfSum(a: seq<Error>, b: seq<Error>, v: Value)
    ensures Times(a + b, v) == Times(a, v) + Times(b, v)
  {
    if a == [] {
      assert a + b == b;
    } else {
      assert (a + b)[1..] == a[1..] + b;
      TimesOfSum(a[1..], b, v);
    }
  }

  /** What one call adds to the seen objects: all the parts of what is added are seen as well. */
  ghost predicate Complete(heap: Heap, before: set<nat>, after: set<nat>) {
    forall o, v: Value :: o in after && o !in before && Part(heap, o, v) && v.Ref? ==> v.at in after
  }

  lemma {:induction false} VisitCompletes(heap: Heap, v: Value, path: string, seen: set<nat>)
    requires WellFormed(heap) && InHeap(heap, v)
    ensures var r := Visit(heap, v, path, seen); Complete(heap, seen, r.seen) && (v.Ref? ==> v.at in r.seen)
    decreases Below(|heap|) - seen, 0
  {
    if v.Ref? && v.at !in seen {
      assert v.at in Below(|heap|) - seen;
      if !heap[v.at].Unsupported? {
        StepsAreParts(heap, v.at);
        VisitAllCompletes(heap, Steps(heap[v.at]), path, seen + {v.at});
      }
    }
  }

  lemma {:induction false} VisitAllCompletes(heap: Heap, steps: seq<(string, Value)>, path: string, seen: set<nat>)
    requires WellFormed(heap) && forall i :: 0 <= i < |steps| ==> InHeap(heap, steps[i].1)
    ensures var r := VisitAll(heap, steps, path, seen);
            Complete(heap, seen, r.seen) && forall i :: 0 <= i < |steps| && steps[i].1.Ref? ==> steps[i].1.at in r.seen
    decreases Below(|heap|) - seen, |steps|
  {
    if steps != [] {
      VisitCompletes(heap, steps[0].1, path + steps[0].0, seen);
      var first := Visit(heap, steps[0].1, path + steps[0].0, seen);
      VisitAllCompletes(heap, steps[1..], path, first.seen);
    }
  }

  lemma ReachesPart(heap: Heap, root: Value, o: nat, v: Value)
    requires Reaches(heap, root, Ref(o)) && Part(heap, o, v)
    ensures Reaches(heap, root, v)
  {
    var walk: seq<Value> :| Walk(heap, walk) && walk[0] == root && walk[|walk| - 1] == Ref(o);
    LongerWalk(heap, walk, v);
  }

  lemma LongerWalk(heap: Heap, walk: seq<Value>, v: Value)
    requires Walk(heap, walk) && walk[|walk| - 1].Ref? && Part(heap, walk[|walk| - 1].at, v)
    ensures Walk(heap, walk + [v])
  {
    var longer := walk + [v];
    forall i | 0 <= i < |longer| - 1 ensures longer[i].Ref? && Part(heap, longer[i].at, longer[i + 1]) {
      assert longer[i] == walk[i];
      if i < |walk| - 1 {
        assert longer[i + 1] == walk[i + 1];
      }
    }
  }

  /** Everything met is reachable, and what is reported is bad. */
  lemma {:induction false} VisitReaches(heap: Heap, root: Value, v: Value, path: string, seen: set<nat>)
    requires WellFormed(heap) && InHeap(heap, v) && Reaches(heap, root, v)
    ensures var r := Visit(heap, v, path, seen);
            (forall o :: o in r.seen && o !in seen ==> Reaches(heap, root, Ref(o)))
            && forall e :: e in r.errors ==> Reaches(heap, root, e.culprit) && Bad(heap, e.culprit)
    decreases Below(|heap|) - seen, 0
  {
    if v.Ref? && v.at !in seen {
      assert v.at in Below(|heap|) - seen;
      if !heap[v.at].Unsupported? {
        var steps := Steps(heap[v.at]);
        forall i | 0 <= i < |steps| ensures InHeap(heap, steps[i].1) && Reaches(heap, root, steps[i].1) {
          InStep(heap, v.at, i);
          ReachesPart(heap, root, v.at, steps[i].1);
        }
        VisitAllReaches(heap, root, steps, path, seen + {v.at});
      }
    }
  }

  lemma {:induction false} VisitAllReaches(heap: Heap, root: Value, steps: seq<(string, Value)>, path: string,
                                           seen: set<nat>)
    requires WellFormed(heap)
    requires forall i :: 0 <= i < |steps| ==> InHeap(heap, steps[i].1) && Reaches(heap, root, steps[i].1)
    ensures var r := VisitAll(heap, steps, path, seen);
            (forall o :: o in r.seen && o !in seen ==> Reaches(heap, root, Ref(o)))
            && forall e :: e in r.errors ==> Reaches(heap, root, e.culprit) && Bad(heap, e.culprit)
    decreases Below(|heap|) - seen, |steps|
  {
    if steps != [] {
      VisitReaches(heap, root, steps[0].1, path + steps[0].0, seen);
      var first := Visit(heap, steps[0].1, path + steps[0].0, seen);
      VisitAllReaches(heap, root, steps[1..], path, first.seen);
    }
  }

  /** An unsupported object is reported when it is first seen, and then only. */
  lemma {:induction false} VisitCounts(heap: Heap, v: Value, path: string, seen: set<nat>, o: nat)
    requires WellFormed(heap) && InHeap(heap, v) && o < |heap|
    ensures var r := Visit(heap, v, path, seen);
            Times(r.errors, Ref(o)) == if o in r.seen && o !in seen && heap[o].Unsupported? then 1 else 0
    decreases Below(|heap|) - seen, 0
  {
    if v.Ref? && v.at !in seen {
      assert v.at in Below(|heap|) - seen;
      if !heap[v.at].Unsupported? {
        StepsAreParts(heap, v.at);
        VisitAllCounts(heap, Steps(heap[v.at]), path, seen + {v.at}, o);
      }
    }
  }

  lemma {:induction false} VisitAllCounts(heap: Heap, steps: seq<(string, Value)>, path: string, seen: set<nat>, o: nat)
    requires WellFormed(heap) && o < |heap| && forall i :: 0 <= i < |steps| ==> InHeap(heap, steps[i].1)
    ensures var r := VisitAll(heap, steps, path, seen);
            Times(r.errors, Ref(o)) == if o in r.seen && o !in seen && heap[o].Unsupported? then 1 else 0
    decreases Below(|heap|) - seen, |steps|
  {
    if steps != [] {
      VisitCounts(heap, steps[0].1, path + steps[0].0, seen, o);
      var first := Visit(heap, steps[0].1, path + steps[0].0, seen);
      VisitAllCounts(heap, steps[1..], path, first.seen, o);
      TimesOfSum(first.errors, VisitAll(heap, steps[1..], path, first.seen).errors, Ref(o));
    }
  }

  /** A symbol in a newly seen object is reported. */
  lemma {:induction false} VisitSymbols(heap: Heap, v: Value, path: string, seen: set<nat>)
    requires WellFormed(heap) && InHeap(heap, v)
    requires v == Symbol || exists o :: o in Visit(heap, v, path, seen).seen && o !in seen && Part(heap, o, Symbol)
    ensures Visit(heap, v, path, seen).errors != []
    decreases Below(|heap|) - seen, 0
  {
    if v.Ref? && v.at !in seen {
      assert v.at in Below(|heap|) - seen;
      if !heap[v.at].Unsupported? {
        StepsAreParts(heap, v.at);
        VisitAllSymbols(heap, Steps(heap[v.at]), path, seen + {v.at});
      }
    }
  }

  lemma {:induction false} VisitAllSymbols(heap: Heap, steps: seq<(string, Value)>, path: string, seen: set<nat>)
    requires WellFormed(heap) && forall i :: 0 <= i < |steps| ==> InHeap(heap, steps[i].1)
    requires (exists i :: 0 <= i < |steps| && steps[i].1 == Symbol)
             || exists o :: o in VisitAll(heap, steps, path, seen).seen && o !in seen && Part(heap, o, Symbol)
    ensures VisitAll(heap, steps, path, seen).errors != []
    decreases Below(|heap|) - seen, |steps|
  {
    if steps != [] {
      var v := steps[0].1;
      var first := Visit(heap, v, path + steps[0].0, seen);
      if v == Symbol || exists o :: o in first.seen && o !in seen && Part(heap, o, Symbol) {
        VisitSymbols(heap, v, path + steps[0].0, seen);
      } else {
        if i :| 0 <= i < |steps| && steps[i].1 == Symbol {
          assert steps[1..][i - 1].1 == Symbol;
        }
        VisitAllSymbols(heap, steps[1..], path, first.seen);
      }
    }
  }

  lemma {:induction false} ClosedHolds(heap: Heap, seen: set<nat>, walk: seq<Value>)
    requires Complete(heap, {}, seen) && Walk(heap, walk) && (walk[0].Ref? ==> walk[0].at in seen)
    ensures walk[|walk| - 1].Ref? ==> walk[|walk| - 1].at in seen
    ensures |walk| > 1 ==> walk[|walk| - 2].Ref? && walk[|walk| - 2].at in seen
    decreases |walk|
  {
    if |walk| > 1 {
      var front := walk[..|walk| - 1];
      assert Walk(heap, front);
      ClosedHolds(heap, seen, front);
      assert Part(heap, walk[|walk| - 2].at, walk[|walk| - 2 + 1]);
    }
  }

  /** A walk over the whole graph sees exactly the objects that can be reached. */
  lemma SeenIsReached(heap: Heap, root: Value, path: string, o: nat)
    requires WellFormed(heap) && InHeap(heap, root)
    ensures o in Visit(heap, root, path, {}).seen <==> Reaches(heap, root, Ref(o))
  {
    assert Walk(heap, [root]);
    VisitReaches(heap, root, root, path, {});
    VisitCompletes(heap, root, path, {});
    if Reaches(heap, root, Ref(o)) {
      var walk: seq<Value> :| Walk(heap, walk) && walk[0] == root && walk[|walk| - 1] == Ref(o);
      ClosedHolds(heap, Visit(heap, root, path, {}).seen, walk);
    }
  }

  /** Each unsupported object is reported exactly once if it can be reached, however often it is shared, and else
      never. */
  lemma ReportedOnce(heap: Heap, root: Value, path: string, o: nat)
    requires WellFormed(heap) && InHeap(heap, root) && o < |heap|
    ensures Times(Visit(heap, root, path, {}).errors, Ref(o)) ==
              if Reaches(heap, root, Ref(o)) && heap[o].Unsupported? then 1 else 0
  {
    SeenIsReached(heap, root, path, o);
    VisitCounts(heap, root, path, {}, o);
  }

  lemma SymbolFound(heap: Heap, root: Value, path: string)
    requires WellFormed(heap) && InHeap(heap, root) && Reaches(heap, root, Symbol)
    ensures Visit(heap, root, path, {}).errors != []
  {
    var r := Visit(heap, root, path, {});
    var walk: seq<Value> :| Walk(heap, walk) && walk[0] == root && walk[|walk| - 1] == Symbol;
    VisitCompletes(heap, root, path, {});
    if |walk| > 1 {
      ClosedHolds(heap, r.seen, walk);
      var o := walk[|walk| - 2].at;
      assert Part(heap, o, walk[|walk| - 2 + 1]);
    }
    VisitSymbols(heap, root, path, {});
  }

  /** Validation is exact: it reports nothing if and only if nothing that cannot be sent is reachable. */
  lemma NoErrorsExactlyWhen(heap: Heap, root: Value, path: string)
    requires WellFormed(heap) && InHeap(heap, root)
    ensures Visit(heap, root, path, {}).errors == [] <==> forall v :: Reaches(heap, root, v) ==> !Bad(heap, v)
  {
    var errors := Visit(heap, root, path, {}).errors;
    assert Walk(heap, [root]);
    VisitReaches(heap, root, root, path, {});
    if errors != [] {
      assert errors[0] in errors;
    } else {
      forall v | Reaches(heap, root, v) ensures !Bad(heap, v) {
        if v == Symbol {
          SymbolFound(heap, root, path);
        } else if v.Ref? && v.at < |heap| {
          ReportedOnce(heap, root, path, v.at);
        }
      }
    }
  }

  // ---- Where it is reported ----

  /** A walk with what each step adds to the path. */
  ghost predicate Trail(heap: Heap, walk: seq<Value>, marks: seq<string>) {
    |walk| == |marks| + 1 && forall i :: 0 <= i < |marks| ==> Labelled(heap, walk[i], marks[i], walk[i + 1])
  }

  ghost predicate Labelled(heap: Heap, v: Value, mark: string, part: Value) {
    v.Ref? && v.at < |heap| && Place(heap[v.at], mark, part)
  }

  function Concat(marks: seq<string>): string {
    if marks == [] then "" else Concat(marks[..|marks| - 1]) + marks[|marks| - 1]
  }

  /** The path of a report spells a walk from the root to the value it is about. */
  ghost predicate Located(heap: Heap, root: Value, path: string, e: Error) {
    exists walk, marks ::
      Trail(heap, walk, marks) && walk[0] == root && walk[|marks|] == e.culprit && e.path == path + Concat(marks)
  }

  lemma TrailStep(heap: Heap, walk: seq<Value>, marks: seq<string>, mark: string, part: Value)
    requires Trail(heap, walk, marks) && Labelled(heap, walk[|marks|], mark, part)
    ensures Trail(heap, walk + [part], marks + [mark]) && Concat(marks + [mark]) == Concat(marks) + mark
  {
    assert (marks + [mark])[..|marks|] == marks;
  }

  lemma {:induction false} VisitLocates(heap: Heap, root: Value, path: string, walk: seq<Value>, marks: seq<string>,
                                        seen: set<nat>)
    requires WellFormed(heap) && Trail(heap, walk, marks) && walk[0] == root && InHeap(heap, walk[|marks|])
    ensures forall e :: e in Visit(heap, walk[|marks|], path + Concat(marks), seen).errors ==>
              Located(heap, root, path, e)
    decreases Below(|heap|) - seen, 0
  {
    var v, at := walk[|marks|], path + Concat(marks);
    assert Located(heap, root, path, Error(at, v));
    if v.Ref? && v.at !in seen {
      assert v.at in Below(|heap|) - seen;
      if !heap[v.at].Unsupported? {
        var steps := Steps(heap[v.at]);
        forall i | 0 <= i < |steps| ensures InHeap(heap, steps[i].1) && Labelled(heap, v, steps[i].0, steps[i].1) {
          InStep(heap, v.at, i);
          StepPlace(heap[v.at], i);
        }
        VisitAllLocates(heap, root, path, walk, marks, steps, seen + {v.at});
      }
    }
  }

  lemma {:induction false} VisitAllLocates(heap: Heap, root: Value, path: string, walk: seq<Value>,
                                           marks: seq<string>, steps: seq<(string, Value)>, seen: set<nat>)
    requires WellFormed(heap) && Trail(heap, walk, marks) && walk[0] == root
    requires forall i :: 0 <= i < |steps| ==>
               InHeap(heap, steps[i].1) && Labelled(heap, walk[|marks|], steps[i].0, steps[i].1)
    ensures forall e :: e in VisitAll(heap, steps, path + Concat(marks), seen).errors ==> Located(heap, root, path, e)
    decreases Below(|heap|) - seen, |steps|
  {
    if steps != [] {
      var (mark, part) := steps[0];
      TrailStep(heap, walk, marks, mark, part);
      assert path + Concat(marks + [mark]) == path + Concat(marks) + mark;
      VisitLocates(heap, root, path, walk + [part], marks + [mark], seen);
      var first := Visit(heap, part, path + Concat(marks) + mark, seen);
      VisitAllLocates(heap, root, path, walk, marks, steps[1..], first.seen);
    }
  }

  /** Every report names the place where the value it is about was met. */
  lemma ReportsLocate(heap: Heap, root: Value, path: string)
    requires WellFormed(heap) && InHeap(heap, root)
    ensures forall e :: e in Visit(heap, root, path, {}).errors ==> Located(heap, root, path, e) && path <= e.path
  {
    assert path + Concat([]) == path;
    VisitLocates(heap, root, path, [root], [], {});
    forall e | e in Visit(heap, root, path, {}).errors ensures path <= e.path {
      var walk, marks :| Trail(heap, walk, marks) && e.path == path + Concat(marks);
    }
  }

  /** The default path is that of a value on its own; arguments and results are validated under their own names. */
  method ValidateRpcValue(heap: Heap, v: Value, path: string := "$") returns (errors: seq<Error>)
    requires WellFormed(heap) && InHeap(heap, v)
    ensures errors == Visit(heap, v, path, {}).errors
    ensures errors == [] <==> forall u :: Reaches(heap, v, u) ==> !Bad(heap, u)
    ensures forall e :: e in errors ==> Located(heap, v, path, e) && path <= e.path
  {
    var seen := new WeakSet();
    errors := Validate(heap, v, path, seen);
    NoErrorsExactlyWhen(heap, v, path);
    ReportsLocate(heap, v, path);
  }
}

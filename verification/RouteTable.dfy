/** The route table: registrations, lazy stable sorting, and resolution by the most specific route. */
module RouteTable {
  import opened Basics
  import opened RouteMatch
  import opened StableSorting

  datatype Route = Route(pattern: string, customDomain: bool)

  /** What can happen to a table before it is asked. */
  datatype Op<M> =
    | AddRoutes(routes: Option<seq<Route>>, manager: M, worker: string, hosts: Option<seq<string>>)
    | AddHostWorker(manager: M, worker: string, patterns: seq<string>)
    | RemoveWorkerRoutes(worker: string)

  function Stays<M>(worker: string): Entry<M> -> bool {
    (e: Entry<M>) => e.worker != worker
  }

  function Without<M>(rs: seq<Entry<M>>, worker: string): seq<Entry<M>> {
    Filter(rs, Stays(worker))
  }

  predicate Taken<M>(rs: seq<Entry<M>>, pattern: string, hosts: Option<seq<string>>) {
    exists i :: 0 <= i < |rs| && rs[i].pattern == pattern && rs[i].hosts.None? && hosts.None?
  }

  function AddOne<M>(rs: seq<Entry<M>>, route: Route, manager: M, worker: string,
                     hosts: Option<seq<string>>): seq<Entry<M>> {
    var pattern := ExtractPathPattern(route.pattern);
    if route.customDomain || Trim(route.pattern) == "" || Taken(rs, pattern, hosts) then rs
    else rs + [Entry(pattern, worker, manager, hosts)]
  }

  function AddAll<M>(rs: seq<Entry<M>>, routes: seq<Route>, manager: M, worker: string,
                     hosts: Option<seq<string>>): seq<Entry<M>> {
    if routes == [] then rs
    else AddOne(AddAll(rs, routes[..|routes| - 1], manager, worker, hosts), routes[|routes| - 1], manager, worker,
        hosts)
  }

  function Apply<M>(rs: seq<Entry<M>>, op: Op<M>): seq<Entry<M>> {
    match op
    case AddRoutes(routes, manager, worker, hosts) =>
      if routes.None? then rs else AddAll(Without(rs, worker), routes.value, manager, worker, hosts)
    case AddHostWorker(manager, worker, patterns) =>
      Without(rs, worker) + [Entry("/*", worker, manager, Some(patterns))]
    case RemoveWorkerRoutes(worker) => Without(rs, worker)
  }

  /** The surviving registrations in order of registration, no table having been sorted. */
  function Registered<M>(history: seq<Op<M>>): seq<Entry<M>> {
    if history == [] then []
    else Apply(Registered(history[..|history| - 1]), history[|history| - 1])
  }

  // ---- What is registered ----

  /** `kept` are the entries of other workers, all of them, in their order; `at` says where they stood. */
  ghost predicate Others<M>(rs: seq<Entry<M>>, worker: string, kept: seq<Entry<M>>, at: seq<nat>) {
    && |at| == |kept|
    && (forall i :: 0 <= i < |kept| ==> at[i] < |rs| && rs[at[i]] == kept[i] && kept[i].worker != worker)
    && (forall i, j :: 0 <= i < j < |at| ==> at[i] < at[j])
    && (forall k :: 0 <= k < |rs| && rs[k].worker != worker ==> k in at)
  }

  /** Whatever renews or removes a worker keeps exactly the entries of the others. */
  lemma {:induction false} KeepsOthers<M>(rs: seq<Entry<M>>, worker: string) returns (at: seq<nat>)
    ensures Others(rs, worker, Without(rs, worker), at)
  {
    at := [];
    if rs != [] {
      var front, last := rs[..|rs| - 1], rs[|rs| - 1];
      at := KeepsOthers(front, worker);
      if last.worker != worker {
        at := at + [|rs| - 1];
      }
    }
  }

  /** A route that is neither a custom domain nor blank. */
  predicate Usable(route: Route) {
    !route.customDomain && Trim(route.pattern) != ""
  }

  /** An earlier route of the list, or an entry that was there before, has its pattern, and none of them is scoped. */
  ghost predicate Duplicate<M>(rs: seq<Entry<M>>, routes: seq<Route>, hosts: Option<seq<string>>, k: nat)
    requires k < |routes|
  {
    hosts.None? &&
    var pattern := ExtractPathPattern(routes[k].pattern);
    || (exists e :: e in rs && e.hosts.None? && e.pattern == pattern)
    || (exists j :: 0 <= j < k && Usable(routes[j]) && ExtractPathPattern(routes[j].pattern) == pattern)
  }

  /** `more` has the entries of the routes at these positions, in their order. */
  ghost predicate Entries<M>(routes: seq<Route>, manager: M, worker: string, hosts: Option<seq<string>>,
                             more: seq<Entry<M>>, at: seq<nat>)
  {
    && |at| == |more|
    && (forall i :: 0 <= i < |more| ==>
        at[i] < |routes| && more[i] == Entry(ExtractPathPattern(routes[at[i]].pattern), worker, manager, hosts))
    && forall i, j :: 0 <= i < j < |at| ==> at[i] < at[j]
  }

  /** The positions of the usable routes that are no duplicates. */
  ghost predicate Chosen<M>(rs: seq<Entry<M>>, routes: seq<Route>, hosts: Option<seq<string>>, at: seq<nat>) {
    forall k :: 0 <= k < |routes| ==> (k in at <==> Usable(routes[k]) && !Duplicate(rs, routes, hosts, k))
  }

  /** `more` has one entry for each usable route of the list that is no duplicate, in their order. */
  ghost predicate Additions<M>(rs: seq<Entry<M>>, routes: seq<Route>, manager: M, worker: string,
                               hosts: Option<seq<string>>, more: seq<Entry<M>>, at: seq<nat>)
  {
    Entries(routes, manager, worker, hosts, more, at) && Chosen(rs, routes, hosts, at)
  }

  lemma TakenIs<M>(rs: seq<Entry<M>>, routes: seq<Route>, manager: M, worker: string, hosts: Option<seq<string>>,
                   more: seq<Entry<M>>, at: seq<nat>, route: Route)
    requires Additions(rs, routes, manager, worker, hosts, more, at)
    ensures Taken(rs + more, ExtractPathPattern(route.pattern), hosts) <==>
            Duplicate(rs, routes + [route], hosts, |routes|)
  {
    var pattern := ExtractPathPattern(route.pattern);
    var longer := routes + [route];
    if Taken(rs + more, pattern, hosts) {
      var i :| 0 <= i < |rs + more| && (rs + more)[i].pattern == pattern && (rs + more)[i].hosts.None? && hosts.None?;
      if i < |rs| {
        assert rs[i] in rs;
      } else {
        assert at[i - |rs|] in at;
        assert longer[at[i - |rs|]] == routes[at[i - |rs|]];
      }
    }
    if Duplicate(rs, longer, hosts, |routes|) {
      if e :| e in rs && e.hosts.None? && e.pattern == pattern {
        var i :| 0 <= i < |rs| && rs[i] == e;
        assert (rs + more)[i] == e;
      } else {
        var j :| 0 <= j < |routes| && Usable(longer[j]) && ExtractPathPattern(longer[j].pattern) == pattern;
        var first := FirstOf(rs, routes, manager, worker, hosts, more, at, j);
        assert (rs + more)[|rs| + first] == more[first];
      }
    }
  }

  /** The first usable route with a pattern that no earlier entry has is added. */
  lemma {:induction false} FirstOf<M>(
    rs: seq<Entry<M>>, routes: seq<Route>, manager: M, worker: string, hosts: Option<seq<string>>,
    more: seq<Entry<M>>, at: seq<nat>, j: nat) returns (i: nat)
    requires Additions(rs, routes, manager, worker, hosts, more, at) && j < |routes| && Usable(routes[j])
    requires hosts.None? && forall e :: e in rs && e.hosts.None? ==> e.pattern != ExtractPathPattern(routes[j].pattern)
    ensures i < |more| && more[i].pattern == ExtractPathPattern(routes[j].pattern) && more[i].hosts.None?
    decreases j
  {
    if j in at {
      i :| 0 <= i < |at| && at[i] == j;
    } else {
      var k :| 0 <= k < j && Usable(routes[k])
               && ExtractPathPattern(routes[k].pattern) == ExtractPathPattern(routes[j].pattern);
      i := FirstOf(rs, routes, manager, worker, hosts, more, at, k);
    }
  }

  lemma NextEntries<M>(routes: seq<Route>, route: Route, manager: M, worker: string, hosts: Option<seq<string>>,
                       more: seq<Entry<M>>, at: seq<nat>)
    requires Entries(routes, manager, worker, hosts, more, at)
    ensures var e := Entry(ExtractPathPattern(route.pattern), worker, manager, hosts);
            && Entries(routes + [route], manager, worker, hosts, more, at)
            && Entries(routes + [route], manager, worker, hosts, more + [e], at + [|routes|])
  {
    var longer := routes + [route];
    assert longer[|routes|] == route && forall k :: 0 <= k < |routes| ==> longer[k] == routes[k];
  }

  lemma NextChosen<M>(rs: seq<Entry<M>>, routes: seq<Route>, route: Route, hosts: Option<seq<string>>, at: seq<nat>)
    requires Chosen(rs, routes, hosts, at) && forall i :: 0 <= i < |at| ==> at[i] < |routes|
    ensures Chosen(rs, routes + [route], hosts,
                   if Usable(route) && !Duplicate(rs, routes + [route], hosts, |routes|) then at + [|routes|] else at)
  {
    SameDuplicates(rs, routes, route, hosts);
    assert forall k :: 0 <= k < |routes| ==> (routes + [route])[k] == routes[k];
  }

  lemma AddOneIs<M>(rs: seq<Entry<M>>, more: seq<Entry<M>>, route: Route, manager: M, worker: string,
                    hosts: Option<seq<string>>)
    ensures var pattern := ExtractPathPattern(route.pattern);
            AddOne(rs + more, route, manager, worker, hosts) ==
            if Usable(route) && !Taken(rs + more, pattern, hosts)
            then rs + (more + [Entry(pattern, worker, manager, hosts)]) else rs + more
  {
    var e := Entry(ExtractPathPattern(route.pattern), worker, manager, hosts);
    assert rs + more + [e] == rs + (more + [e]);
  }

  lemma AddsNext<M>(rs: seq<Entry<M>>, routes: seq<Route>, route: Route, manager: M, worker: string,
                    hosts: Option<seq<string>>, more: seq<Entry<M>>, at: seq<nat>)
    returns (longer: seq<Entry<M>>, from: seq<nat>)
    requires Additions(rs, routes, manager, worker, hosts, more, at)
    ensures AddOne(rs + more, route, manager, worker, hosts) == rs + longer
    ensures Additions(rs, routes + [route], manager, worker, hosts, longer, from)
  {
    TakenIs(rs, routes, manager, worker, hosts, more, at, route);
    NextEntries(routes, route, manager, worker, hosts, more, at);
    NextChosen(rs, routes, route, hosts, at);
    AddOneIs(rs, more, route, manager, worker, hosts);
    var e := Entry(ExtractPathPattern(route.pattern), worker, manager, hosts);
    var adds := Usable(route) && !Duplicate(rs, routes + [route], hosts, |routes|);
    longer, from := if adds then more + [e] else more, if adds then at + [|routes|] else at;
  }

  /** A list of routes adds exactly its usable routes that are no duplicates. */
  lemma {:induction false} AddsUsable<M>(rs: seq<Entry<M>>, routes: seq<Route>, manager: M, worker: string,
                                         hosts: Option<seq<string>>) returns (more: seq<Entry<M>>, at: seq<nat>)
    ensures AddAll(rs, routes, manager, worker, hosts) == rs + more
    ensures Additions(rs, routes, manager, worker, hosts, more, at)
  {
    more, at := [], [];
    if routes != [] {
      var front, last := routes[..|routes| - 1], routes[|routes| - 1];
      more, at := AddsUsable(rs, front, manager, worker, hosts);
      assert routes == front + [last];
      more, at := AddsNext(rs, front, last, manager, worker, hosts, more, at);
    }
  }

  lemma SameDuplicates<M>(rs: seq<Entry<M>>, routes: seq<Route>, route: Route, hosts: Option<seq<string>>)
    ensures forall k :: 0 <= k < |routes| ==>
              (Duplicate(rs, routes + [route], hosts, k) <==> Duplicate(rs, routes, hosts, k))
  {
    var longer := routes + [route];
    forall k | 0 <= k < |routes| ensures Duplicate(rs, longer, hosts, k) <==> Duplicate(rs, routes, hosts, k) {
      assert forall j :: 0 <= j <= k ==> longer[j] == routes[j];
    }
  }

  /** The operation registers anew, or removes, what `worker` has. */
  predicate Renews<M>(op: Op<M>, worker: string) {
    op.worker == worker && (op.AddRoutes? ==> op.routes.Some?)
  }

  /** What one operation does to the registrations. */
  ghost predicate Does<M(!new)>(before: seq<Entry<M>>, op: Op<M>, after: seq<Entry<M>>) {
    if !Renews(op, op.worker) then after == before
    else
      exists kept, at ::
        Others(before, op.worker, kept, at) &&
        match op
        case AddRoutes(routes, manager, worker, hosts) =>
          exists more, from ::
            Additions(kept, routes.value, manager, worker, hosts, more, from) && after == kept + more
        case AddHostWorker(manager, worker, patterns) =>
          after == kept + [Entry("/*", worker, manager, Some(patterns))]
        case RemoveWorkerRoutes(_) => after == kept
  }

  /** Every operation keeps the other workers' entries in their order; a list of routes adds its usable routes that are
      no duplicates, a host worker the one entry for every path, a removal nothing. */
  lemma OperationDoes<M(!new)>(history: seq<Op<M>>, op: Op<M>)
    ensures Does(Registered(history), op, Registered(history + [op]))
  {
    var before := Registered(history);
    assert (history + [op])[..|history|] == history;
    if Renews(op, op.worker) {
      var kept := Without(before, op.worker);
      var at := KeepsOthers(before, op.worker);
      if op.AddRoutes? {
        var more, from := AddsUsable(kept, op.routes.value, op.manager, op.worker, op.hosts);
      }
    }
  }

  lemma OthersHave<M>(before: seq<Entry<M>>, worker: string, kept: seq<Entry<M>>, at: seq<nat>, e: Entry<M>)
    requires Others(before, worker, kept, at) && e.worker != worker
    ensures e in kept <==> e in before
  {
    if e in before {
      var k :| 0 <= k < |before| && before[k] == e;
      var i :| 0 <= i < |at| && at[i] == k;
      assert kept[i] == e;
    }
  }

  lemma AdditionsOwn<M>(rs: seq<Entry<M>>, routes: seq<Route>, manager: M, worker: string,
                        hosts: Option<seq<string>>, more: seq<Entry<M>>, at: seq<nat>, e: Entry<M>)
    requires Additions(rs, routes, manager, worker, hosts, more, at) && e.worker != worker
    ensures e !in more
  {
  }

  lemma OthersStay<M(!new)>(before: seq<Entry<M>>, op: Op<M>, after: seq<Entry<M>>, e: Entry<M>)
    requires Does(before, op, after) && e.worker != op.worker
    ensures e in after <==> e in before
  {
    if Renews(op, op.worker) {
      var kept, at :| Others(before, op.worker, kept, at) &&
        match op
        case AddRoutes(routes, manager, worker, hosts) =>
          exists more, from ::
            Additions(kept, routes.value, manager, worker, hosts, more, from) && after == kept + more
        case AddHostWorker(manager, worker, patterns) =>
          after == kept + [Entry("/*", worker, manager, Some(patterns))]
        case RemoveWorkerRoutes(_) => after == kept;
      OthersHave(before, op.worker, kept, at, e);
      if op.AddRoutes? {
        var more, from :|
          Additions(kept, op.routes.value, op.manager, op.worker, op.hosts, more, from) && after == kept + more;
        AdditionsOwn(kept, op.routes.value, op.manager, op.worker, op.hosts, more, from, e);
      }
    }
  }

  /** Operation `i` was the last to name the worker of `e`, and registered `e`. */
  ghost predicate LastNamed<M>(history: seq<Op<M>>, e: Entry<M>, i: nat) {
    && i < |history| && Renews(history[i], e.worker) && e in Registered(history[..i + 1])
    && forall j :: i < j < |history| ==> !Renews(history[j], e.worker)
  }

  lemma LastNamedPush<M>(history: seq<Op<M>>, op: Op<M>, e: Entry<M>, i: nat)
    requires !Renews(op, e.worker)
    ensures LastNamed(history + [op], e, i) <==> LastNamed(history, e, i)
  {
    if i < |history| {
      assert (history + [op])[..i + 1] == history[..i + 1];
      assert forall j :: 0 <= j < |history| ==> (history + [op])[j] == history[j];
    }
  }

  /** An entry is registered if and only if some operation registered it and no later one named its worker. */
  lemma {:induction false} SurvivesIff<M(!new)>(history: seq<Op<M>>, e: Entry<M>)
    ensures e in Registered(history) <==> exists i :: LastNamed(history, e, i)
  {
    if history != [] {
      var front, op := history[..|history| - 1], history[|history| - 1];
      assert history == front + [op];
      if Renews(op, e.worker) {
        assert history[..|front| + 1] == history;
        assert e in Registered(history) <==> LastNamed(history, e, |front|);
        assert forall i: nat :: LastNamed(history, e, i) ==> i == |front|;
      } else {
        SurvivesIff(front, e);
        StaysRegistered(front, op, e);
        forall i: nat ensures LastNamed(history, e, i) <==> LastNamed(front, e, i) {
          LastNamedPush(front, op, e, i);
        }
      }
    }
  }

  lemma StaysRegistered<M(!new)>(history: seq<Op<M>>, op: Op<M>, e: Entry<M>)
    requires !Renews(op, e.worker)
    ensures e in Registered(history + [op]) <==> e in Registered(history)
  {
    OperationDoes(history, op);
    if op.worker != e.worker {
      OthersStay(Registered(history), op, Registered(history + [op]), e);
    }
  }

  // ---- The order of the table ----

  function BySpecificity<M>(): Comparator<Entry<M>> {
    (a: Entry<M>, b: Entry<M>) => Compare(a, b)
  }

  function Sorted<M>(rs: seq<Entry<M>>): seq<Entry<M>> {
    StableSort(BySpecificity(), rs)
  }

  /** Two tables that look the same once sorted. */
  ghost predicate Same<M>(a: seq<Entry<M>>, b: seq<Entry<M>>) {
    Alike(BySpecificity(), a, b)
  }

  lemma SpecificityIsWeakOrder<M(!new)>()
    ensures WeakOrder(BySpecificity<M>())
  {
    forall a: Entry<M>, b: Entry<M>, c: Entry<M> ensures Consistent(BySpecificity(), a, b, c) {
      StrictWeakOrder(a, b, c);
      StrictWeakOrder(b, a, c);
    }
  }

  lemma SamePush<M(!new)>(a: seq<Entry<M>>, b: seq<Entry<M>>, x: Entry<M>)
    requires Same(a, b)
    ensures Same(a + [x], b + [x])
  {
    SpecificityIsWeakOrder<M>();
    AlikeKeeps(BySpecificity(), a, b, x, Stays(""));
  }

  lemma SameWithout<M(!new)>(a: seq<Entry<M>>, b: seq<Entry<M>>, worker: string)
    requires Same(a, b)
    ensures Same(Without(a, worker), Without(b, worker))
    ensures a == Sorted(b) ==> Without(a, worker) == Sorted(Without(b, worker))
  {
    SpecificityIsWeakOrder<M>();
    SortFiltered(BySpecificity(), a, Stays(worker));
    SortFiltered(BySpecificity(), b, Stays(worker));
  }

  lemma SameMembers<M(!new)>(a: seq<Entry<M>>, b: seq<Entry<M>>)
    requires Same(a, b)
    ensures (forall e :: e in a <==> e in b) && |a| == |b|
  {
    SpecificityIsWeakOrder<M>();
    StableSortIs(BySpecificity(), a);
    StableSortIs(BySpecificity(), b);
    assert multiset(a) == multiset(b);
    assert forall e :: e in a <==> e in multiset(a);
    assert |multiset(a)| == |a|;
  }

  lemma SameTaken<M(!new)>(a: seq<Entry<M>>, b: seq<Entry<M>>, pattern: string, hosts: Option<seq<string>>)
    requires Same(a, b) && Taken(a, pattern, hosts)
    ensures Taken(b, pattern, hosts)
  {
    SameMembers(a, b);
    var i :| 0 <= i < |a| && a[i].pattern == pattern && a[i].hosts.None? && hosts.None?;
    assert a[i] in b;
  }

  /** The sorted table: the same routes, none before a more specific one, ties as they were registered. */
  lemma SortedIs<M(!new)>(rs: seq<Entry<M>>)
    ensures forall i, j :: 0 <= i < j < |Sorted(rs)| ==> Compare(Sorted(rs)[i], Sorted(rs)[j]) <= 0
    ensures (forall e :: e in Sorted(rs) <==> e in rs) && |Sorted(rs)| == |rs|
    ensures forall e :: Filter(Sorted(rs), TiesWith(BySpecificity(), e)) == Filter(rs, TiesWith(BySpecificity(), e))
  {
    SpecificityIsWeakOrder<M>();
    StableSortIs(BySpecificity(), rs);
    forall i, j | 0 <= i < j < |Sorted(rs)| ensures Compare(Sorted(rs)[i], Sorted(rs)[j]) <= 0 {
      assert BySpecificity()(Sorted(rs)[i], Sorted(rs)[j]) <= 0;
    }
    assert multiset(Sorted(rs)) == multiset(rs);
    assert forall e :: e in rs <==> e in multiset(rs);
    assert forall e :: e in Sorted(rs) <==> e in multiset(Sorted(rs));
    assert |multiset(rs)| == |rs|;
  }

  lemma SortedTwice<M(!new)>(a: seq<Entry<M>>, b: seq<Entry<M>>)
    requires Same(a, b)
    ensures Sorted(a) == Sorted(b) && Same(Sorted(a), b)
  {
    SpecificityIsWeakOrder<M>();
    StableSortIs(BySpecificity(), a);
    SortOrdered(BySpecificity(), Sorted(a));
  }

  // ---- Resolution ----

  predicate Eligible<M>(e: Entry<M>, pathname: string, hostname: Option<string>) {
    && (e.hosts.None?
        || (hostname.Some? && exists i :: 0 <= i < |e.hosts.value| && MatchHost(hostname.value, e.hosts.value[i])))
    && MatchRoute(pathname, e.pattern)
  }

  function FirstEligible<M>(rs: seq<Entry<M>>, pathname: string, hostname: Option<string>): Option<Entry<M>> {
    if rs == [] then None
    else if Eligible(rs[0], pathname, hostname) then Some(rs[0])
    else FirstEligible(rs[1..], pathname, hostname)
  }

  /** The answer of a table that is sorted afresh for every request. */
  function Answer<M>(history: seq<Op<M>>, fallback: M, pathname: string, hostname: Option<string>): M {
    match FirstEligible(Sorted(Registered(history)), pathname, hostname)
    case Some(e) => e.manager
    case None => fallback
  }

  class RouteDispatcher<M(!new)> {
    var routes: seq<Entry<M>>
    var sorted: bool
    const fallback: M
    ghost var history: seq<Op<M>>

    ghost predicate Valid()
      reads this
    {
      Same(routes, Registered(history)) && (sorted ==> routes == Sorted(Registered(history)))
    }

    constructor (fallback: M)
      ensures Valid() && history == [] && this.fallback == fallback
    {
      routes, sorted, history := [], true, [];
      this.fallback := fallback;
    }

    method AddRoutes(config: Option<seq<Route>>, manager: M, worker: string, hosts: Option<seq<string>>)
      requires Valid()
      modifies this
      ensures Valid() && history == old(history) + [Op.AddRoutes(config, manager, worker, hosts)]
    {
      ghost var before := Registered(history);
      ghost var op := Op.AddRoutes(config, manager, worker, hosts);
      history := history + [op];
      assert history[..|history| - 1] == old(history);
      if config.None? {
        return;
      }
      var hadRoutes := |routes| > 0;
      SameWithout(routes, before, worker);
      routes := Without(routes, worker);
      if hadRoutes && |routes| == 0 {
        SameMembers(routes, Without(before, worker));
        sorted := true;
      }
      ghost var rest := Without(before, worker);
      assert rest == AddAll(rest, config.value[..0], manager, worker, hosts);
      for i := 0 to |config.value|
        invariant Same(routes, AddAll(rest, config.value[..i], manager, worker, hosts))
        invariant sorted ==> routes == Sorted(AddAll(rest, config.value[..i], manager, worker, hosts))
        invariant history == old(history) + [op]
      {
        assert config.value[..i + 1][..i] == config.value[..i];
        AddRoute(config.value[i], manager, worker, hosts, AddAll(rest, config.value[..i], manager, worker, hosts));
      }
      assert config.value[..|config.value|] == config.value;
    }

    method AddRoute(route: Route, manager: M, worker: string, hosts: Option<seq<string>>, ghost added: seq<Entry<M>>)
      requires Same(routes, added) && (sorted ==> routes == Sorted(added))
      modifies this`routes, this`sorted
      ensures var more := AddOne(added, route, manager, worker, hosts);
              Same(routes, more) && (sorted ==> routes == Sorted(more))
    {
      if route.customDomain || Trim(route.pattern) == "" {
        return;
      }
      var pattern := ExtractPathPattern(route.pattern);
      if Taken(routes, pattern, hosts) {
        SameTaken(routes, added, pattern, hosts);
        return;
      }
      if Taken(added, pattern, hosts) {
        SameTaken(added, routes, pattern, hosts);
      }
      var e := Entry(pattern, worker, manager, hosts);
      SamePush(routes, added, e);
      routes := routes + [e];
      sorted := false;
    }

    method AddHostWorker(manager: M, worker: string, hosts: seq<string>)
      requires Valid()
      modifies this
      ensures Valid() && history == old(history) + [Op.AddHostWorker(manager, worker, hosts)]
    {
      ghost var before := Registered(history);
      history := history + [Op.AddHostWorker(manager, worker, hosts)];
      assert history[..|history| - 1] == old(history);
      SameWithout(routes, before, worker);
      var e := Entry("/*", worker, manager, Some(hosts));
      SamePush(Without(routes, worker), Without(before, worker), e);
      routes := Without(routes, worker);
      routes := routes + [e];
      sorted := false;
      assert Registered(history) == Without(before, worker) + [e];
    }

    method RemoveWorkerRoutes(worker: string)
      requires Valid()
      modifies this
      ensures Valid() && history == old(history) + [Op.RemoveWorkerRoutes(worker)]
    {
      ghost var before := Registered(history);
      history := history + [Op.RemoveWorkerRoutes(worker)];
      assert history[..|history| - 1] == old(history);
      SameWithout(routes, before, worker);
      routes := Without(routes, worker);
    }

    method EnsureSorted()
      requires Valid()
      modifies this`routes, this`sorted
      ensures Valid() && routes == Sorted(Registered(history))
    {
      if !sorted {
        SortedTwice(routes, Registered(history));
        routes := Sorted(routes);
        sorted := true;
      }
    }

    /** Sorting on demand is unobservable: whatever was resolved before, the answer depends on the history alone. */
    method Resolve(pathname: string, hostname: Option<string>) returns (manager: M)
      requires Valid()
      modifies this`routes, this`sorted
      ensures Valid() && manager == Answer(history, fallback, pathname, hostname)
    {
      EnsureSorted();
      var i := 0;
      assert routes[0..] == routes;
      while i < |routes|
        invariant i <= |routes|
        invariant FirstEligible(routes, pathname, hostname) == FirstEligible(routes[i..], pathname, hostname)
      {
        ghost var left := routes[i..];
        assert left[0] == routes[i] && left[1..] == routes[i + 1..];
        if Eligible(routes[i], pathname, hostname) {
          return routes[i].manager;
        }
        i := i + 1;
      }
      manager := fallback;
    }
  }

  // ---- What the answer is ----

  /** What makes an entry eligible: no scope or a host of it that allows the request's, and its pattern is the path, or
      ends in a star and begins it. */
  lemma EligibleWhen<M>(e: Entry<M>, path: string, hostname: Option<string>)
    requires StartsWith(path, "/") && Simple(e.pattern)
    ensures Eligible(e, path, hostname) <==>
            && (e.hosts.Some? ==> hostname.Some? && exists p :: p in e.hosts.value && HostAllows(hostname.value, p))
            && (if Wild(e.pattern) then StartsWith(path, Stem(e.pattern)) else path == e.pattern)
  {
    MatchIsPrefix(path, e.pattern);
    if e.hosts.Some? && hostname.Some? {
      forall p | p in e.hosts.value ensures MatchHost(hostname.value, p) <==> HostAllows(hostname.value, p) {
        HostMatches(hostname.value, p);
      }
    }
  }

  lemma {:induction false} FirstIsFirst<M>(rs: seq<Entry<M>>, pathname: string, hostname: Option<string>)
    returns (k: nat)
    ensures k <= |rs| && forall i :: 0 <= i < k ==> !Eligible(rs[i], pathname, hostname)
    ensures FirstEligible(rs, pathname, hostname) == if k == |rs| then None else Some(rs[k])
    ensures k < |rs| ==> Eligible(rs[k], pathname, hostname)
  {
    if rs == [] || Eligible(rs[0], pathname, hostname) {
      k := 0;
    } else {
      var rest := FirstIsFirst(rs[1..], pathname, hostname);
      k := rest + 1;
      forall i | 0 <= i < k ensures !Eligible(rs[i], pathname, hostname) {
        assert i > 0 ==> rs[i] == rs[1..][i - 1];
      }
    }
  }

  /** The answer comes from an eligible route that no other eligible route precedes in the order, if there is any. */
  lemma MostSpecific<M(!new)>(rs: seq<Entry<M>>, pathname: string, hostname: Option<string>)
    ensures match FirstEligible(Sorted(rs), pathname, hostname)
            case None => forall o :: o in rs ==> !Eligible(o, pathname, hostname)
            case Some(e) =>
              e in rs && Eligible(e, pathname, hostname)
              && forall o :: o in rs && Eligible(o, pathname, hostname) ==> Compare(e, o) <= 0
  {
    var table := Sorted(rs);
    SortedIs(rs);
    var k := FirstIsFirst(table, pathname, hostname);
    if k < |table| {
      forall o | o in rs && Eligible(o, pathname, hostname) ensures Compare(table[k], o) <= 0 {
        var i :| 0 <= i < |table| && table[i] == o;
        StrictWeakOrder(o, o, o);
      }
    }
  }

  /** Every route is a path without query or fragment, and no two unscoped routes share a pattern. */
  ghost predicate Clean<M>(rs: seq<Entry<M>>) {
    (forall e :: e in rs ==> StartsWith(e.pattern, "/") && '?' !in e.pattern && '#' !in e.pattern)
    && forall i, j :: 0 <= i < j < |rs| && rs[i].hosts.None? && rs[j].hosts.None? ==> rs[i].pattern != rs[j].pattern
  }

  lemma CleanWithout<M>(rs: seq<Entry<M>>, worker: string)
    requires Clean(rs)
    ensures Clean(Without(rs, worker))
  {
    var kept := Without(rs, worker);
    forall i | 0 <= i < |kept| ensures kept[i] in rs {
      var p := FilterAt(rs, Stays(worker), i);
    }
    forall i, j | 0 <= i < j < |kept| && kept[i].hosts.None? && kept[j].hosts.None?
      ensures kept[i].pattern != kept[j].pattern
    {
      var p, q := FilterPair(rs, Stays(worker), i, j);
    }
  }

  lemma {:induction false} CleanAddAll<M>(rs: seq<Entry<M>>, routes: seq<Route>, manager: M, worker: string,
                                          hosts: Option<seq<string>>)
    requires Clean(rs)
    ensures Clean(AddAll(rs, routes, manager, worker, hosts))
  {
    if routes != [] {
      CleanAddAll(rs, routes[..|routes| - 1], manager, worker, hosts);
      ExtractedIsPath(routes[|routes| - 1].pattern);
    }
  }

  lemma {:induction false} RegisteredIsClean<M>(history: seq<Op<M>>)
    ensures Clean(Registered(history))
  {
    if history != [] {
      var before := Registered(history[..|history| - 1]);
      RegisteredIsClean(history[..|history| - 1]);
      match history[|history| - 1]
      case AddRoutes(routes, manager, worker, hosts) =>
        if routes.Some? {
          CleanWithout(before, worker);
          CleanAddAll(Without(before, worker), routes.value, manager, worker, hosts);
        }
      case AddHostWorker(_, worker, _) => CleanWithout(before, worker);
      case RemoveWorkerRoutes(worker) => CleanWithout(before, worker);
    }
  }

  /** All routes unscoped, with a star at most at the end. */
  ghost predicate Plain<M>(rs: seq<Entry<M>>) {
    forall e :: e in rs ==> e.hosts.None? && '*' !in e.pattern[..Max(0, |e.pattern| - 1)]
  }

  predicate Exact<M>(e: Entry<M>, path: string) {
    !Wild(e.pattern) && e.pattern == path
  }

  predicate Covers<M>(e: Entry<M>, path: string) {
    Wild(e.pattern) && StartsWith(path, Stem(e.pattern))
  }

  /** `e` alone is exact, or nothing is and the stem of `e` is longer than every other that begins the path. */
  ghost predicate Best<M>(rs: seq<Entry<M>>, path: string, e: Entry<M>) {
    e in rs &&
    ((Exact(e, path) && forall o :: o in rs && Exact(o, path) ==> o == e)
     || (Covers(e, path)
         && forall o :: o in rs && o != e ==> !Exact(o, path) && (Covers(o, path) ==> |o.pattern| < |e.pattern|)))
  }

  lemma MatchingOrder<M>(e: Entry<M>, o: Entry<M>, path: string)
    requires StartsWith(path, "/") && Simple(e.pattern) && Simple(o.pattern) && e.hosts.None? && o.hosts.None?
    requires (Exact(e, path) || Covers(e, path)) && (Exact(o, path) || Covers(o, path)) && Compare(e, o) <= 0
    ensures Wild(e.pattern) ==> Wild(o.pattern)
    ensures Wild(e.pattern) ==> |o.pattern| <= |e.pattern|
    ensures Wild(e.pattern) == Wild(o.pattern) && |o.pattern| == |e.pattern| ==> o.pattern == e.pattern
  {
    WildIsStar(e.pattern);
    WildIsStar(o.pattern);
    if Wild(e.pattern) && |e.pattern| < |o.pattern| {
      assert Stem(o.pattern)[..|Stem(e.pattern)|] == Stem(e.pattern);
      LongerFirst(e, o);
      StrictWeakOrder(e, o, e);
    }
  }

  lemma SamePattern<M>(rs: seq<Entry<M>>, e: Entry<M>, o: Entry<M>)
    requires Clean(rs) && e in rs && o in rs && e.hosts.None? && o.hosts.None? && e.pattern == o.pattern
    ensures e == o
  {
  }

  lemma PlainEligible<M>(rs: seq<Entry<M>>, e: Entry<M>, path: string, hostname: Option<string>)
    requires StartsWith(path, "/") && Plain(rs) && Clean(rs) && e in rs
    ensures Simple(e.pattern) && (Eligible(e, path, hostname) <==> Exact(e, path) || Covers(e, path))
  {
  }

  /** Longest prefix: for unscoped routes with trailing stars, the answer is the exact route if there is one, else the
      matching route with the longest stem, else the fallback. */
  lemma LongestPrefix<M(!new)>(history: seq<Op<M>>, fallback: M, path: string, hostname: Option<string>)
    requires StartsWith(path, "/") && Plain(Registered(history))
    ensures var rs := Registered(history);
            var answer := Answer(history, fallback, path, hostname);
            (exists e :: Best(rs, path, e) && answer == e.manager)
            || (answer == fallback && forall e :: e in rs ==> !Exact(e, path) && !Covers(e, path))
  {
    var rs := Registered(history);
    RegisteredIsClean(history);
    MostSpecific(rs, path, hostname);
    forall e | e in rs
      ensures Simple(e.pattern) && (Eligible(e, path, hostname) <==> Exact(e, path) || Covers(e, path))
    {
      PlainEligible(rs, e, path, hostname);
    }
    match FirstEligible(Sorted(rs), path, hostname)
    case None =>
    case Some(e) =>
      forall o | o in rs && (Exact(o, path) || Covers(o, path))
        ensures if Wild(e.pattern) then Wild(o.pattern) && |o.pattern| <= |e.pattern|
                  && (|o.pattern| == |e.pattern| ==> o == e)
                else Exact(o, path) ==> o == e
      {
        MatchingOrder(e, o, path);
        if o.pattern == e.pattern {
          SamePattern(rs, e, o);
        }
      }
      assert Best(rs, path, e);
  }
}

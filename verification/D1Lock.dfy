/** The lock of a D1 connection: calls queue on a chain of promises while their statements interleave freely. */
module D1Lock {
  import opened Basics
  import opened D1Database

  datatype Phase<R> =
    | Waiting
    | Running(done: nat, results: seq<R>, failed: Option<string>)
    | Finished(outcome: Result<seq<R>, string>)

  /** A call that has arrived: the promise it waits for, and how far it has come. */
  datatype Task<R> = Task(ready: Option<nat>, phase: Phase<R>)

  /** `calls` in order of arrival, the promise of call `i` being `i`; `tail` is the entry of the lock table. */
  datatype State<D, R> = State(
    store: Store<D>, calls: seq<Call>, tasks: seq<Task<R>>, tail: Option<nat>, resolved: set<nat>)

  /** A call asks for the lock, goes on after waiting (a batch issues BEGIN), runs its next statement, or ends. */
  datatype Event = Arrive(call: Call) | Enter(i: nat) | Advance(i: nat) | Finish(i: nat)

  function Init<D, R>(d: D): State<D, R> {
    State(Store(d, None), [], [], None, {})
  }

  predicate Enabled<D, R>(s: State<D, R>, e: Event) {
    |s.calls| == |s.tasks| &&
    (e.Arrive? ||
     (e.i < |s.tasks| &&
      var task := s.tasks[e.i];
      match e
      case Enter(i) => task.phase.Waiting? && (task.ready.Some? ==> task.ready.value in s.resolved)
      case Advance(i) => task.phase.Running? && task.phase.failed.None? && task.phase.done < |Statements(s.calls[i])|
      case Finish(i) => task.phase.Running? && (task.phase.failed.Some? || task.phase.done >= |Statements(s.calls[i])|)
      case Arrive(_) => true))
  }

  function At<D, R>(s: State<D, R>, i: nat, phase: Phase<R>): State<D, R>
    requires i < |s.tasks|
  {
    s.(tasks := s.tasks[i := s.tasks[i].(phase := phase)])
  }

  function Settle<D, R>(s: State<D, R>, i: nat, store: Store<D>, outcome: Result<seq<R>, string>): State<D, R>
    requires i < |s.tasks|
  {
    At(s, i, Finished(outcome)).(store := store, resolved := s.resolved + {i})
  }

  function Entered<D, R>(s: State<D, R>, i: nat): State<D, R>
    requires Enabled(s, Enter(i))
  {
    if !s.calls[i].Batch? then At(s, i, Running(0, [], None))
    else if s.store.saved.Some? then Settle(s, i, s.store, Failure("cannot start a transaction within a transaction"))
    else At(s, i, Running(0, [], None)).(store := Store(s.store.data, Some(s.store.data)))
  }

  function Advanced<D, R>(engine: Engine<D, R>, s: State<D, R>, i: nat): State<D, R>
    requires Enabled(s, Advance(i))
  {
    var phase := s.tasks[i].phase;
    var (store, r) := RunOne(engine, Statements(s.calls[i])[phase.done], s.store);
    var next := match r
      case Success(x) => phase.(done := phase.done + 1, results := phase.results + [x])
      case Failure(error) => phase.(done := phase.done + 1, failed := Some(error));
    At(s, i, next).(store := store)
  }

  function Ended<D, R>(s: State<D, R>, i: nat): State<D, R>
    requires Enabled(s, Finish(i))
  {
    var phase := s.tasks[i].phase;
    match s.calls[i]
    case Batch(_, commits) =>
      if phase.failed.Some? then Settle(s, i, s.store.Undone(), Failure(phase.failed.value))
      else if commits && s.store.saved.Some? then Settle(s, i, s.store.(saved := None), Success(phase.results))
      else Settle(s, i, s.store.Undone(), Failure("commit refused"))
    case _ =>
      Settle(s, i, s.store, if phase.failed.Some? then Failure(phase.failed.value) else Success(phase.results))
  }

  function Step<D, R>(engine: Engine<D, R>, s: State<D, R>, e: Event): State<D, R>
    requires Enabled(s, e)
  {
    match e
    case Arrive(call) =>
      s.(calls := s.calls + [call], tasks := s.tasks + [Task(s.tail, Waiting)], tail := Some(|s.tasks|))
    case Enter(i) => Entered(s, i)
    case Advance(i) => Advanced(engine, s, i)
    case Finish(i) => Ended(s, i)
  }

  /** Every interleaving: any sequence of enabled events. */
  function After<D, R>(engine: Engine<D, R>, d: D, events: seq<Event>): Option<State<D, R>> {
    if events == [] then Some(Init(d))
    else
      var s :- After(engine, d, events[..|events| - 1]);
      var e := events[|events| - 1];
      if Enabled(s, e) then Some(Step(engine, s, e)) else None
  }

  function Arrivals(events: seq<Event>): seq<Call> {
    if events == [] then []
    else
      var before := Arrivals(events[..|events| - 1]);
      match events[|events| - 1]
      case Arrive(call) => before + [call]
      case _ => before
  }

  /** The database after the first `k` calls, one after another. */
  function Serial<D, R>(engine: Engine<D, R>, calls: seq<Call>, k: nat, d: D): D
    requires k <= |calls|
  {
    if k == 0 then d else CallAfter(engine, calls[k - 1], Serial(engine, calls, k - 1, d)).data
  }

  function SerialOutcome<D, R>(engine: Engine<D, R>, calls: seq<Call>, k: nat, d: D): Result<seq<R>, string>
    requires k < |calls|
  {
    CallAfter(engine, calls[k], Serial(engine, calls, k, d)).outcome
  }

  /** How the store of a call under way relates to the database `base` it found. */
  ghost predicate UnderWay<D, R>(engine: Engine<D, R>, call: Call, phase: Phase<R>, store: Store<D>, base: D)
    requires phase.Running?
  {
    var stmts := Statements(call);
    phase.done <= |stmts| &&
    if call.Batch? then
      match phase.failed
      case None =>
        store.saved == Some(base) && RunFirst(engine, stmts, phase.done, base) == Ran(store.data, phase.results)
      case Some(error) =>
        store.Undone() == Store(base, None) && RunFirst(engine, stmts, phase.done, base) == Stopped(error)
    else
      store.saved == None &&
      match phase.failed
      case None =>
        ExecAfter(engine, stmts, [], base) == ExecAfter(engine, stmts[phase.done..], phase.results, store.data)
      case Some(error) => ExecAfter(engine, stmts, [], base) == D1Database.After(store.data, Failure(error))
  }

  /** The chain: each call waits for the one that arrived just before it. */
  ghost predicate Chained<D, R>(s: State<D, R>) {
    && |s.calls| == |s.tasks|
    && s.tail == (if s.tasks == [] then None else Some(|s.tasks| - 1))
    && forall i :: 0 <= i < |s.tasks| ==> s.tasks[i].ready == if i == 0 then None else Some(i - 1)
  }

  /** The first `k` calls are over, call `k` may be running, the others wait. */
  ghost predicate Inv<D, R>(engine: Engine<D, R>, d: D, s: State<D, R>, k: nat) {
    && Chained(s)
    && k <= |s.tasks|
    && (forall i :: i in s.resolved <==> 0 <= i < k)
    && (forall i :: 0 <= i < k ==> s.tasks[i].phase == Finished(SerialOutcome(engine, s.calls, i, d)))
    && (forall i :: k < i < |s.tasks| ==> s.tasks[i].phase.Waiting?)
    && (k < |s.tasks| ==> !s.tasks[k].phase.Finished?)
    && var base := Serial(engine, s.calls, k, d);
    if k < |s.tasks| && s.tasks[k].phase.Running? then UnderWay(engine, s.calls[k], s.tasks[k].phase, s.store, base)
    else s.store == Store(base, None)
  }

  lemma {:induction false} SerialOfPrefix<D, R>(engine: Engine<D, R>, calls: seq<Call>, more: seq<Call>, k: nat, d: D)
    requires k <= |calls|
    ensures Serial(engine, calls + more, k, d) == Serial(engine, calls, k, d)
  {
    if k > 0 {
      SerialOfPrefix(engine, calls, more, k - 1, d);
    }
  }

  lemma ArriveKeeps<D, R>(engine: Engine<D, R>, d: D, s: State<D, R>, k: nat, call: Call)
    requires Inv(engine, d, s, k)
    ensures Inv(engine, d, Step(engine, s, Arrive(call)), k)
  {
    forall i: nat | i <= k ensures Serial(engine, s.calls + [call], i, d) == Serial(engine, s.calls, i, d) {
      SerialOfPrefix(engine, s.calls, [call], i, d);
    }
  }

  lemma OnlyTheNext<D, R>(engine: Engine<D, R>, d: D, s: State<D, R>, k: nat, e: Event)
    requires Inv(engine, d, s, k) && Enabled(s, e) && !e.Arrive?
    ensures e.i == k
  {
  }

  lemma EnterKeeps<D, R>(engine: Engine<D, R>, d: D, s: State<D, R>, k: nat)
    requires Inv(engine, d, s, k) && Enabled(s, Enter(k))
    ensures Inv(engine, d, Entered(s, k), k)
  {
  }

  lemma AdvanceUnderWay<D, R>(engine: Engine<D, R>, call: Call, phase: Phase<R>, store: Store<D>, base: D)
    requires phase.Running? && UnderWay(engine, call, phase, store, base) && phase.failed.None?
    requires phase.done < |Statements(call)|
    ensures var (after, r) := RunOne(engine, Statements(call)[phase.done], store);
            UnderWay(engine, call,
                     match r
                     case Success(x) => phase.(done := phase.done + 1, results := phase.results + [x])
                     case Failure(error) => phase.(done := phase.done + 1, failed := Some(error)),
                     after, base)
  {
  }

  lemma AdvanceKeeps<D, R>(engine: Engine<D, R>, d: D, s: State<D, R>, k: nat)
    requires Inv(engine, d, s, k) && Enabled(s, Advance(k))
    ensures Inv(engine, d, Advanced(engine, s, k), k)
  {
    AdvanceUnderWay(engine, s.calls[k], s.tasks[k].phase, s.store, Serial(engine, s.calls, k, d));
  }

  lemma EndOfBatch<D, R>(engine: Engine<D, R>, call: Call, phase: Phase<R>, store: Store<D>, base: D)
    requires phase.Running? && UnderWay(engine, call, phase, store, base) && call.Batch?
    requires phase.failed.Some? || phase.done >= |Statements(call)|
    ensures var after := CallAfter(engine, call, base);
            if phase.failed.Some? then after == D1Database.After(base, Failure(phase.failed.value))
            else if call.commits then after == D1Database.After(store.data, Success(phase.results))
            else after == D1Database.After(base, Failure("commit refused"))
  {
    if phase.failed.Some? {
      StopStays(engine, call.stmts, phase.done, |call.stmts|, base);
    }
  }

  lemma FinishKeeps<D, R>(engine: Engine<D, R>, d: D, s: State<D, R>, k: nat)
    requires Inv(engine, d, s, k) && Enabled(s, Finish(k))
    ensures Inv(engine, d, Ended(s, k), k + 1)
  {
    var base := Serial(engine, s.calls, k, d);
    var after := CallAfter(engine, s.calls[k], base);
    assert Serial(engine, s.calls, k + 1, d) == after.data;
    if s.calls[k].Batch? {
      EndOfBatch(engine, s.calls[k], s.tasks[k].phase, s.store, base);
    } else {
      assert after == ExecAfter(engine, Statements(s.calls[k]), [], base);
    }
    var t := Ended(s, k);
    assert t.store == Store(after.data, None) && t.tasks[k].phase == Finished(after.outcome);
  }

  lemma {:induction false} Reachable<D, R>(engine: Engine<D, R>, d: D, events: seq<Event>) returns (k: nat)
    requires After(engine, d, events).Some?
    ensures var s := After(engine, d, events).value; Inv(engine, d, s, k) && s.calls == Arrivals(events)
  {
    if events == [] {
      k := 0;
    } else {
      var before := events[..|events| - 1];
      var e := events[|events| - 1];
      var s := After(engine, d, before).value;
      k := Reachable(engine, d, before);
      if e.Arrive? {
        ArriveKeeps(engine, d, s, k, e.call);
      } else {
        OnlyTheNext(engine, d, s, k, e);
        match e
        case Enter(_) => EnterKeeps(engine, d, s, k);
        case Advance(_) => AdvanceKeeps(engine, d, s, k);
        case Finish(_) =>
          FinishKeeps(engine, d, s, k);
          k := k + 1;
      }
    }
  }

  /** Under every interleaving the calls that are over got the outcomes they would get one after another in order of
      arrival; once all are over the database is the one that leaves, and no transaction is open. */
  lemma Serializable<D, R>(engine: Engine<D, R>, d: D, events: seq<Event>)
    requires After(engine, d, events).Some?
    ensures var s := After(engine, d, events).value;
            var calls := Arrivals(events);
            |s.tasks| == |calls|
            && (forall i :: 0 <= i < |calls| && s.tasks[i].phase.Finished? ==>
                s.tasks[i].phase.outcome == SerialOutcome(engine, calls, i, d))
            && ((forall i :: 0 <= i < |calls| ==> s.tasks[i].phase.Finished?) ==>
                s.store == Store(Serial(engine, calls, |calls|, d), None))
  {
    var k := Reachable(engine, d, events);
    var s := After(engine, d, events).value;
  }

  /** No two calls are ever between lock and unlock, and no earlier call is still to come. */
  lemma OneAtATime<D, R>(engine: Engine<D, R>, d: D, events: seq<Event>, i: nat, j: nat)
    requires After(engine, d, events).Some?
    requires var s := After(engine, d, events).value; i < |s.tasks| && j < |s.tasks| && s.tasks[j].phase.Running?
    ensures var s := After(engine, d, events).value;
            (i < j ==> s.tasks[i].phase.Finished?) && (i > j ==> s.tasks[i].phase.Waiting?)
  {
    var _ := Reachable(engine, d, events);
  }

  /** How many more steps the calls that have arrived will take. */
  function Left<D, R>(s: State<D, R>, n: nat): nat
    requires n <= |s.tasks| == |s.calls|
  {
    if n == 0 then 0
    else
      var size := |Statements(s.calls[n - 1])|;
      var task := s.tasks[n - 1];
      Left(s, n - 1) +
      match task.phase
      case Waiting => size + 2
      case Running(done, _, failed) => if failed.None? && done < size then size - done + 1 else 1
      case Finished(_) => 0
  }

  lemma {:induction false} LeftElsewhere<D, R>(s: State<D, R>, t: State<D, R>, n: nat)
    requires n <= |s.tasks| == |s.calls| && s.calls == t.calls && |t.tasks| == |s.tasks|
    requires forall i :: 0 <= i < n ==> t.tasks[i] == s.tasks[i]
    ensures Left(t, n) == Left(s, n)
  {
    if n > 0 {
      LeftElsewhere(s, t, n - 1);
    }
  }

  lemma {:induction false} LeftDrops<D, R>(s: State<D, R>, t: State<D, R>, i: nat, n: nat)
    requires i < n <= |s.tasks| == |s.calls| && s.calls == t.calls && |t.tasks| == |s.tasks|
    requires forall j :: 0 <= j < n && j != i ==> t.tasks[j] == s.tasks[j]
    requires Left(t, i + 1) - Left(t, i) < Left(s, i + 1) - Left(s, i)
    ensures Left(t, n) < Left(s, n)
  {
    if n == i + 1 {
      LeftElsewhere(s, t, i);
    } else {
      LeftDrops(s, t, i, n - 1);
    }
  }

  lemma StepDrops<D, R>(engine: Engine<D, R>, s: State<D, R>, e: Event)
    requires Enabled(s, e) && !e.Arrive?
    ensures var t := Step(engine, s, e);
            t.calls == s.calls && |t.tasks| == |s.tasks| && Left(t, |t.tasks|) < Left(s, |s.tasks|)
  {
    LeftDrops(s, Step(engine, s, e), e.i, |s.tasks|);
  }

  lemma NextMoves<D, R>(engine: Engine<D, R>, d: D, s: State<D, R>, k: nat)
    requires Inv(engine, d, s, k) && k < |s.tasks|
    ensures Enabled(s, Enter(k)) || Enabled(s, Advance(k)) || Enabled(s, Finish(k))
  {
  }

  /** While a call is not over some step of it can be taken, and every step but an arrival brings the end nearer:
      the lock never deadlocks and every call is settled. */
  lemma Progress<D, R>(engine: Engine<D, R>, d: D, events: seq<Event>)
    requires After(engine, d, events).Some?
    ensures var s := After(engine, d, events).value;
            ((exists i :: 0 <= i < |s.tasks| && !s.tasks[i].phase.Finished?) ==>
               exists i :: Enabled(s, Enter(i)) || Enabled(s, Advance(i)) || Enabled(s, Finish(i)))
    ensures var s := After(engine, d, events).value;
            forall e :: Enabled(s, e) && !e.Arrive? ==>
              var t := Step(engine, s, e);
              t.calls == s.calls && |t.tasks| == |s.tasks| && Left(t, |t.tasks|) < Left(s, |s.tasks|)
  {
    var k := Reachable(engine, d, events);
    var s := After(engine, d, events).value;
    if k < |s.tasks| {
      NextMoves(engine, d, s, k);
    }
    forall e | Enabled(s, e) && !e.Arrive?
      ensures var t := Step(engine, s, e);
              t.calls == s.calls && |t.tasks| == |s.tasks| && Left(t, |t.tasks|) < Left(s, |s.tasks|)
    {
      StepDrops(engine, s, e);
    }
  }
}

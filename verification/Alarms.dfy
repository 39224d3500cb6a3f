/** Durable Object alarms: the persisted rows, the timers kept in memory for them, and the steps that change both. */
module Alarms {
  import opened Basics

  const MAX_ALARM_RETRIES: nat := 6

  /** A timeout the event loop holds: which instance it fires, as which attempt, when it was armed and when it is
      due. */
  datatype Timer = Timer(id: string, retry: nat, armed: int, due: int)

  /** A handler that has been called and has not returned. */
  datatype Firing = Firing(id: string, retry: nat)

  /** `rows` is the alarm table, `timers` the index by instance, `live` every timeout not yet cleared or run. */
  datatype State = State(
    rows: map<string, int>, timers: map<string, nat>, live: map<nat, Timer>, next: nat,
    now: int, wired: bool, running: multiset<Firing>)

  function Clear(s: State, id: string): State {
    if id in s.timers then s.(live := s.live - {s.timers[id]}, timers := s.timers - {id}) else s
  }

  function Arm(s: State, t: Timer): State {
    s.(live := s.live[s.next := t], timers := s.timers[t.id := s.next], next := s.next + 1)
  }

  function Schedule(s: State, id: string, time: int): State {
    Arm(Clear(s, id), Timer(id, 0, s.now, s.now + Max(0, time - s.now)))
  }

  function SetAlarm(s: State, id: string, time: int): State {
    Schedule(s.(rows := s.rows[id := time]), id, time)
  }

  /** Also what `cancelAlarm` and `deleteInstance` do to the alarms. */
  function DeleteAlarm(s: State, id: string): State {
    Clear(s.(rows := s.rows - {id}), id)
  }

  function Fire(s: State, id: string, retry: nat): State {
    if s.wired then s.(rows := s.rows - {id}, running := s.running + multiset{Firing(id, retry)}) else s
  }

  function TimerFires(s: State, n: nat): State
    requires n in s.live
  {
    var t := s.live[n];
    Fire(s.(timers := s.timers - {t.id}, live := s.live - {n}), t.id, t.retry)
  }

  function Pow2(k: nat): nat {
    if k == 0 then 1 else 2 * Pow2(k - 1)
  }

  function Backoff(retry: nat): nat {
    Pow2(retry) * 1000
  }

  /** Persists an alarm again and sets its timer, without clearing one that is set. */
  function Rearm(s: State, id: string, retry: nat, backoff: nat): State {
    Arm(s.(rows := s.rows[id := s.now + backoff]), Timer(id, retry, s.now, s.now + backoff))
  }

  function HandlerEnds(s: State, f: Firing, ok: bool): State {
    var ended := s.(running := s.running - multiset{f});
    if ok || f.retry >= MAX_ALARM_RETRIES then ended else Rearm(ended, f.id, f.retry + 1, Backoff(f.retry))
  }

  function Trigger(s: State, id: string): State {
    Fire(Clear(s, id), id, 0)
  }

  /** The rows in the order the table returned them. */
  function Restore(s: State, ids: seq<string>): State
    requires forall id :: id in ids ==> id in s.rows
  {
    if ids == [] then s
    else
      var before := Restore(s, ids[..|ids| - 1]);
      Schedule(before, ids[|ids| - 1], s.rows[ids[|ids| - 1]])
  }

  function FireAll(s: State, ids: seq<string>): State {
    if ids == [] then s else Trigger(FireAll(s, ids[..|ids| - 1]), ids[|ids| - 1])
  }

  function ClearAll(s: State): State {
    s.(live := s.live - s.timers.Values, timers := map[])
  }

  // ---- The index and the table ----

  /** An entry is a live timer of a persisted alarm, due at its time or at once if that had passed. */
  ghost predicate GoodEntry(s: State, id: string)
    requires id in s.timers
  {
    id in s.rows && s.timers[id] in s.live &&
    var t := s.live[s.timers[id]];
    t.id == id && t.armed <= s.now && t.due == Max(t.armed, s.rows[id])
  }

  /** Every entry of the index is good. */
  ghost predicate Sound(s: State) {
    && (forall n :: n in s.live ==> n < s.next)
    && forall id :: id in s.timers ==> GoodEntry(s, id)
  }

  /** And every persisted alarm has an entry. */
  ghost predicate Agrees(s: State) {
    Sound(s) && forall id :: id in s.rows ==> id in s.timers
  }

  /** With the entry of `id` gone, its row may be anything. */
  lemma ClearKeeps(s: State, id: string, u: State)
    requires Sound(s) && u == Clear(s, id).(rows := u.rows) && u.rows - {id} == s.rows - {id}
    ensures u.timers == s.timers - {id} && Sound(u)
  {
    forall o | o in u.timers ensures GoodEntry(u, o) {
      assert GoodEntry(s, o);
      assert o in s.rows - {id};
      assert (u.rows - {id})[o] == (s.rows - {id})[o];
    }
  }

  lemma ScheduleKeeps(s: State, id: string, time: int)
    requires Sound(Clear(s, id)) && id in s.rows && s.rows[id] == time
    ensures Sound(Schedule(s, id, time)) && Schedule(s, id, time).timers.Keys == s.timers.Keys + {id}
  {
  }

  lemma RestoreOne(s: State, id: string)
    requires Sound(s) && id in s.rows
    ensures var t := Schedule(s, id, s.rows[id]);
            && Sound(t) && t.rows == s.rows && t.wired == s.wired && t.now == s.now
            && t.timers.Keys == s.timers.Keys + {id}
  {
    ClearKeeps(s, id, Clear(s, id));
    ScheduleKeeps(s, id, s.rows[id]);
  }

  /** Restoring gives every alarm of the list its timer, whichever of them had one before. */
  lemma {:induction false} RestoreAgrees(s: State, ids: seq<string>)
    requires Sound(s) && forall id :: id in ids ==> id in s.rows
    ensures Sound(Restore(s, ids)) && Restore(s, ids).rows == s.rows && Restore(s, ids).wired == s.wired
    ensures Restore(s, ids).now == s.now
    ensures forall id :: id in Restore(s, ids).timers <==> id in s.timers || id in ids
  {
    if ids != [] {
      var front, last := ids[..|ids| - 1], ids[|ids| - 1];
      RestoreAgrees(s, front);
      RestoreOne(Restore(s, front), last);
      assert ids == front + [last];
    }
  }

  // ---- Runs ----

  datatype Event =
    | Tick(to: int)
    | Set(id: string, time: int)
    | Delete(id: string)
    | Due(timer: nat)
    | Ends(firing: Firing, ok: bool)
    | TriggerNow(id: string)
    | Swap(order: seq<string>)
    | Drain

  predicate Enabled(s: State, e: Event) {
    match e
    case Tick(to) => s.now <= to
    case Due(n) => n in s.live && s.live[n].due <= s.now
    case Ends(f, _) => f in s.running
    case Swap(order) => (forall id :: id in order ==> id in s.rows) && (forall id :: id in s.rows ==> id in order)
    case _ => true
  }

  function Step(s: State, e: Event): State
    requires Enabled(s, e)
  {
    match e
    case Tick(to) => s.(now := to)
    case Set(id, time) => SetAlarm(s, id, time)
    case Delete(id) => DeleteAlarm(s, id)
    case Due(n) => TimerFires(s, n)
    case Ends(f, ok) => HandlerEnds(s, f, ok)
    case TriggerNow(id) => Trigger(s, id)
    case Swap(order) => Restore(s.(wired := true), order)
    case Drain => ClearAll(s)
  }

  /** A namespace just made over the table it finds. */
  function Fresh(rows: map<string, int>, now: int): State {
    State(rows, map[], map[], 0, now, false, multiset{})
  }

  /** A step whose handler is not checked to have been called. */
  function Apply(s: State, e: Event): State
    requires e.Ends? || Enabled(s, e)
  {
    if e.Ends? then HandlerEnds(s, e.firing, e.ok) else Step(s, e)
  }

  function Run(s: State, events: seq<Event>): Option<State> {
    if events == [] then Some(s)
    else
      var before :- Run(s, events[..|events| - 1]);
      var e := events[|events| - 1];
      if Enabled(before, e) then Some(Step(before, e)) else None
  }

  /** The namespace has been given a class and has not been drained since. */
  predicate Attached(events: seq<Event>) {
    events != [] &&
    match events[|events| - 1]
    case Swap(_) => true
    case Drain => false
    case _ => Attached(events[..|events| - 1])
  }

  lemma SetKeeps(s: State, id: string, time: int)
    requires Sound(s)
    ensures Sound(SetAlarm(s, id, time))
    ensures Agrees(s) ==> Agrees(SetAlarm(s, id, time))
  {
  }

  lemma DeleteKeeps(s: State, id: string)
    requires Sound(s)
    ensures Sound(DeleteAlarm(s, id))
    ensures Agrees(s) ==> Agrees(DeleteAlarm(s, id))
  {
  }

  lemma DueKeeps(s: State, n: nat)
    requires Sound(s) && n in s.live
    ensures Sound(TimerFires(s, n)) && (Agrees(s) && s.wired ==> Agrees(TimerFires(s, n)))
  {
  }

  lemma TriggerKeeps(s: State, id: string)
    requires Sound(s)
    ensures Sound(Trigger(s, id)) && (Agrees(s) && s.wired ==> Agrees(Trigger(s, id)))
  {
  }

  lemma TickSound(s: State, to: int)
    requires Sound(s) && s.now <= to
    ensures Sound(s.(now := to)) && (Agrees(s) ==> Agrees(s.(now := to)))
  {
    forall id | id in s.timers ensures GoodEntry(s.(now := to), id) {
      assert GoodEntry(s, id);
    }
  }

  /** With a row changed behind its back an index agrees exactly when the entry was due then anyway. */
  lemma RowChanged(s: State, id: string, time: int)
    requires Agrees(s)
    ensures Agrees(s.(rows := s.rows[id := time])) <==>
            id in s.timers && s.live[s.timers[id]].due == Max(s.live[s.timers[id]].armed, time)
  {
    var t := s.(rows := s.rows[id := time]);
    forall o | o in s.timers && o != id ensures GoodEntry(t, o) {
      assert GoodEntry(s, o);
    }
    if id in s.timers {
      assert GoodEntry(s, id);
    }
    if Agrees(t) {
      assert id in t.timers && GoodEntry(t, id);
    }
  }

  lemma RearmKeeps(s: State, id: string, retry: nat, backoff: nat)
    requires Sound(s)
    ensures Sound(Rearm(s, id, retry, backoff)) && (Agrees(s) ==> Agrees(Rearm(s, id, retry, backoff)))
  {
  }

  lemma EndsKeeps(s: State, f: Firing, ok: bool)
    requires Sound(s)
    ensures Sound(HandlerEnds(s, f, ok)) && (Agrees(s) ==> Agrees(HandlerEnds(s, f, ok)))
  {
    var ended := s.(running := s.running - multiset{f});
    assert Sound(ended);
    RearmKeeps(ended, f.id, f.retry + 1, Backoff(f.retry));
  }

  /** A failure short of the last attempt has a new row and a new entry, due after the backoff; nothing else does. */
  ghost predicate Ended(s: State, t: State, id: string, retry: nat, ok: bool) {
    var again, due := !ok && retry < MAX_ALARM_RETRIES, s.now + Backoff(retry);
    && (again ==> t.rows == s.rows[id := due] && id in t.timers && t.timers[id] in t.live)
    && (again ==> t.live[t.timers[id]] == Timer(id, retry + 1, s.now, due) && t.timers - {id} == s.timers - {id})
    && (!again ==> t.rows == s.rows && t.timers == s.timers && t.live == s.live)
  }

  lemma EndsEffect(s: State, id: string, retry: nat, ok: bool)
    ensures Ended(s, HandlerEnds(s, Firing(id, retry), ok), id, retry, ok)
  {
  }

  lemma StepKeeps(s: State, e: Event)
    requires Sound(s) && Enabled(s, e)
    ensures Sound(Step(s, e))
    ensures !e.Drain? && (e.Swap? || (Agrees(s) && s.wired)) ==> Agrees(Step(s, e)) && Step(s, e).wired
  {
    match e
    case Tick(_) =>
    case Set(id, time) => SetKeeps(s, id, time);
    case Delete(id) => DeleteKeeps(s, id);
    case Due(n) => DueKeeps(s, n);
    case Ends(f, ok) => EndsKeeps(s, f, ok);
    case TriggerNow(id) => TriggerKeeps(s, id);
    case Swap(order) => RestoreAgrees(s.(wired := true), order);
    case Drain =>
  }

  /** The index agrees with storage: from any persisted table, through any run, every entry belongs to a persisted
      alarm; and while a class is attached every persisted alarm has its entry. */
  lemma {:induction false} IndexAgrees(rows: map<string, int>, now: int, events: seq<Event>)
    requires Run(Fresh(rows, now), events).Some?
    ensures var s := Run(Fresh(rows, now), events).value;
            Sound(s) && (Attached(events) ==> Agrees(s) && s.wired)
  {
    if events != [] {
      var init := Fresh(rows, now);
      var front := events[..|events| - 1];
      IndexAgrees(rows, now, front);
      StepKeeps(Run(init, front).value, events[|events| - 1]);
    }
  }

  // ---- One timer for each instance ----

  /** The index misses no timer of `id`. */
  ghost predicate Unique(s: State, id: string) {
    forall n :: n in s.live && s.live[n].id == id ==> id in s.timers && n == s.timers[id]
  }

  /** A handler of `id` failed and is to be retried, while `id` has a timer already. */
  predicate Doubles(s: State, e: Event, id: string) {
    e.Ends? && e.firing.id == id && !e.ok && e.firing.retry < MAX_ALARM_RETRIES && id in s.timers
  }

  lemma ScheduleUnique(s: State, o: string, time: int, id: string)
    requires Sound(s) && Unique(s, id)
    ensures Unique(Schedule(s, o, time), id)
  {
    var c := Clear(s, o);
    assert Unique(c, id);
  }

  lemma {:induction false} RestoreUnique(s: State, ids: seq<string>, id: string)
    requires Sound(s) && Unique(s, id) && forall o :: o in ids ==> o in s.rows
    ensures Unique(Restore(s, ids), id)
  {
    if ids != [] {
      var front, last := ids[..|ids| - 1], ids[|ids| - 1];
      RestoreUnique(s, front, id);
      RestoreAgrees(s, front);
      ScheduleUnique(Restore(s, front), last, s.rows[last], id);
    }
  }

  lemma SetUnique(s: State, o: string, time: int, id: string)
    requires Sound(s) && Unique(s, id)
    ensures Unique(SetAlarm(s, o, time), id)
  {
    var c := Clear(s.(rows := s.rows[o := time]), o);
    assert c.live == Clear(s, o).live && c.timers == Clear(s, o).timers;
    assert Unique(c, id);
  }

  lemma EndsUnique(s: State, f: Firing, ok: bool, id: string)
    requires Sound(s) && Unique(s, id)
    ensures Unique(HandlerEnds(s, f, ok), id) <==> f.id != id || ok || f.retry >= MAX_ALARM_RETRIES || id !in s.timers
  {
    var t := HandlerEnds(s, f, ok);
    if !ok && f.retry < MAX_ALARM_RETRIES && f.id == id && id in s.timers {
      var n := s.timers[id];
      assert GoodEntry(s, id);
      assert n in t.live && t.live[n].id == id && t.timers[id] == s.next;
    }
  }

  lemma DueUnique(s: State, n: nat, id: string)
    requires Sound(s) && Unique(s, id) && n in s.live
    ensures Unique(TimerFires(s, n), id)
  {
  }

  lemma TriggerUnique(s: State, o: string, id: string)
    requires Sound(s) && Unique(s, id)
    ensures Unique(Trigger(s, o), id)
  {
    assert Unique(Clear(s, o), id);
  }

  /** An instance comes to have a timer in no index exactly at a failure whose retry finds an alarm set. */
  lemma SecondTimerWhen(s: State, e: Event, id: string)
    requires Sound(s) && Unique(s, id) && Enabled(s, e)
    ensures Unique(Step(s, e), id) <==> !Doubles(s, e, id)
  {
    match e
    case Tick(_) =>
    case Set(o, time) => SetUnique(s, o, time, id);
    case Delete(o) => assert Unique(Clear(s, o), id);
    case Due(n) => DueUnique(s, n, id);
    case Ends(f, ok) => EndsUnique(s, f, ok, id);
    case TriggerNow(o) => TriggerUnique(s, o, id);
    case Swap(order) => RestoreUnique(s.(wired := true), order, id);
    case Drain =>
  }

  /** In no prefix of the run is that the next step. */
  predicate NeverDoubles(s: State, events: seq<Event>, id: string)
    requires Run(s, events).Some?
  {
    events == [] ||
    var front := events[..|events| - 1];
    NeverDoubles(s, front, id) && !Doubles(Run(s, front).value, events[|events| - 1], id)
  }

  /** Along a run in which that never happens, each instance has its one indexed timer at most. */
  lemma {:induction false} OneTimer(rows: map<string, int>, now: int, events: seq<Event>, id: string)
    requires Run(Fresh(rows, now), events).Some? && NeverDoubles(Fresh(rows, now), events, id)
    ensures Unique(Run(Fresh(rows, now), events).value, id)
  {
    if events != [] {
      var front := events[..|events| - 1];
      OneTimer(rows, now, front, id);
      IndexAgrees(rows, now, front);
      SecondTimerWhen(Run(Fresh(rows, now), front).value, events[|events| - 1], id);
    }
  }

  lemma RunPush(s: State, events: seq<Event>, e: Event)
    requires Run(s, events).Some? && Enabled(Run(s, events).value, e)
    ensures Run(s, events + [e]) == Some(Step(Run(s, events).value, e))
  {
    assert (events + [e])[..|events + [e]| - 1] == events;
  }

  /** An alarm fires at once, its handler sets another nine seconds ahead, and then fails. */
  function DoublingRun(id: string): seq<Event> {
    [Swap([])] + [Set(id, 0)] + [Due(0)] + [Set(id, 9000)] + [Ends(Firing(id, 0), false)]
  }

  lemma DoublingSteps(id: string)
    ensures var wired := State(map[], map[], map[], 0, 0, true, multiset{});
            var due := State(map[id := 0], map[id := 0], map[0 := Timer(id, 0, 0, 0)], 1, 0, true, multiset{});
            var called := State(map[], map[], map[], 1, 0, true, multiset{Firing(id, 0)});
            Restore(Fresh(map[], 0).(wired := true), []) == wired && SetAlarm(wired, id, 0) == due
                && TimerFires(due, 0) == called
  {
  }

  lemma DoublingEnd(id: string)
    ensures var called := State(map[], map[], map[], 1, 0, true, multiset{Firing(id, 0)});
            var again := SetAlarm(called, id, 9000);
            var s := HandlerEnds(again, Firing(id, 0), false);
            && Firing(id, 0) in again.running
            && s.live == map[1 := Timer(id, 0, 0, 9000), 2 := Timer(id, 1, 0, 1000)]
            && s.rows == map[id := 1000] && s.timers == map[id := 2] && !Unique(s, id)
  {
    var called := State(map[], map[], map[], 1, 0, true, multiset{Firing(id, 0)});
    var again := SetAlarm(called, id, 9000);
    assert again.live == map[1 := Timer(id, 0, 0, 9000)] && again.timers == map[id := 1] && again.next == 2;
    assert Backoff(0) == 1000;
    var s := HandlerEnds(again, Firing(id, 0), false);
    assert s.live[1].id == id && s.timers[id] == 2;
  }

  /** So two timers are live for one instance, one of them in no index, while the index agrees with the table. */
  lemma SecondTimer(id: string)
    ensures Run(Fresh(map[], 0), DoublingRun(id)).Some?
    ensures var s := Run(Fresh(map[], 0), DoublingRun(id)).value;
            && s.live == map[1 := Timer(id, 0, 0, 9000), 2 := Timer(id, 1, 0, 1000)]
            && s.rows == map[id := 1000] && s.timers == map[id := 2]
            && Agrees(s) && !Unique(s, id)
  {
    var init := Fresh(map[], 0);
    var e1, e2, e3, e4 := [Swap([])], [Set(id, 0)], [Due(0)], [Set(id, 9000)];
    DoublingSteps(id);
    assert [] + e1 == e1;
    RunPush(init, [], Swap([]));
    RunPush(init, e1, Set(id, 0));
    RunPush(init, e1 + e2, Due(0));
    RunPush(init, e1 + e2 + e3, Set(id, 9000));
    DoublingEnd(id);
    RunPush(init, e1 + e2 + e3 + e4, Ends(Firing(id, 0), false));
    IndexAgrees(map[], 0, DoublingRun(id));
  }
}

/** An alarm whose handler always fails: which attempts are made, how long each waits, and that they end. */
module AlarmRetries {
  import opened Basics
  import opened Alarms

  /** What can be seen of one instance's alarm: a call of its handler, and how far ahead a retry is put. */
  datatype Note = Called(retry: nat) | Waits(ms: int)

  function Noted(s: State, e: Event, id: string): seq<Note>
    requires Enabled(s, e)
  {
    match e
    case Due(n) => if s.live[n].id == id then [Called(s.live[n].retry)] else []
    case Ends(f, _) =>
      var t := Step(s, e);
      if f.id == id && id in t.rows then [Waits(t.rows[id] - s.now)] else []
    case _ => []
  }

  function Trace(s: State, events: seq<Event>, id: string): seq<Note>
    requires Run(s, events).Some?
  {
    if events == [] then []
    else
      var front := events[..|events| - 1];
      Trace(s, front, id) + Noted(Run(s, front).value, events[|events| - 1], id)
  }

  /** The handler of `id` fails, and nothing else sets, triggers, deletes or restores its alarm. */
  predicate Undisturbed(e: Event, id: string) {
    match e
    case Tick(_) => true
    case Due(_) => true
    case Set(o, _) => o != id
    case Delete(o) => o != id
    case TriggerNow(o) => o != id
    case Ends(f, ok) => f.id == id ==> !ok
    case Swap(_) => false
    case Drain => false
  }

  /** The first `k` attempts with the wait that follows each. */
  function Attempts(k: nat): seq<Note> {
    if k == 0 then [] else Attempts(k - 1) + [Called(k - 1), Waits(Backoff(k - 1))]
  }

  function FullChain(): seq<Note> {
    Attempts(MAX_ALARM_RETRIES) + [Called(MAX_ALARM_RETRIES)]
  }

  function TotalWait(notes: seq<Note>): int {
    if notes == [] then 0
    else TotalWait(notes[..|notes| - 1]) + if notes[|notes| - 1].Waits? then notes[|notes| - 1].ms else 0
  }

  function Calls(notes: seq<Note>): seq<nat> {
    if notes == [] then []
    else Calls(notes[..|notes| - 1]) + if notes[|notes| - 1].Called? then [notes[|notes| - 1].retry] else []
  }

  datatype Stage = Armed(k: nat) | Handling(k: nat) | Over

  ghost predicate NoTimer(s: State, id: string) {
    id !in s.timers && forall n :: n in s.live ==> s.live[n].id != id
  }

  ghost predicate NotRunning(s: State, id: string) {
    forall f :: f in s.running ==> f.id != id
  }

  ghost predicate At(s: State, id: string, stage: Stage) {
    Sound(s) && s.wired &&
    match stage
    case Armed(k) =>
      && k <= MAX_ALARM_RETRIES && id in s.timers && s.live[s.timers[id]].retry == k && NotRunning(s, id)
      && forall n :: n in s.live && s.live[n].id == id ==> n == s.timers[id]
    case Handling(k) =>
      && k <= MAX_ALARM_RETRIES && NoTimer(s, id) && id !in s.rows
      && s.running[Firing(id, k)] == 1 && forall f :: f in s.running && f.id == id ==> f == Firing(id, k)
    case Over => NoTimer(s, id) && id !in s.rows && NotRunning(s, id)
  }

  function Seen(stage: Stage): seq<Note> {
    match stage
    case Armed(k) => Attempts(k)
    case Handling(k) => Attempts(k) + [Called(k)]
    case Over => FullChain()
  }

  /** Nothing about `id` differs. */
  ghost predicate Same(s: State, t: State, id: string) {
    && s.wired == t.wired && s.now <= t.now
    && (id in s.rows <==> id in t.rows)
    && (id in s.timers <==> id in t.timers) && (id in s.timers ==> s.timers[id] == t.timers[id])
    && (forall n :: n in s.live && s.live[n].id == id ==> n in t.live && t.live[n] == s.live[n])
    && (forall n :: n in t.live && t.live[n].id == id ==> n in s.live && s.live[n] == t.live[n])
    && (forall f: Firing :: f.id == id ==> s.running[f] == t.running[f])
  }

  lemma ClearOther(s: State, o: string, id: string)
    requires Sound(s) && o != id
    ensures Same(s, Clear(s, o), id)
  {
  }

  lemma ArmOther(s: State, t: Timer, id: string)
    requires t.id != id && forall n :: n in s.live ==> n < s.next
    ensures Same(s, Arm(s, t), id)
  {
  }

  lemma FireOther(s: State, o: string, retry: nat, id: string)
    requires o != id
    ensures Same(s, Fire(s, o, retry), id)
  {
  }

  lemma SameThrough(s: State, t: State, u: State, id: string)
    requires Same(s, t, id) && Same(t, u, id)
    ensures Same(s, u, id)
  {
  }

  lemma RowOther(s: State, o: string, time: int, id: string)
    requires o != id
    ensures Same(s, s.(rows := s.rows[o := time]), id)
  {
  }

  lemma SetInSteps(s: State, o: string, time: int)
    ensures SetAlarm(s, o, time) ==
              Arm(Clear(s, o).(rows := s.rows[o := time]), Timer(o, 0, s.now, s.now + Max(0, time - s.now)))
    ensures Clear(s, o).rows == s.rows && Clear(s, o).next == s.next && Clear(s, o).live.Keys <= s.live.Keys
  {
  }

  lemma ScheduleOther(s: State, o: string, time: int, id: string)
    requires Sound(s) && o != id
    ensures Same(s, SetAlarm(s, o, time), id)
  {
    var c := Clear(s, o);
    var r := c.(rows := c.rows[o := time]);
    SetInSteps(s, o, time);
    ClearOther(s, o, id);
    RowOther(c, o, time, id);
    SameThrough(s, c, r, id);
    ArmOther(r, Timer(o, 0, s.now, s.now + Max(0, time - s.now)), id);
    SameThrough(s, r, SetAlarm(s, o, time), id);
  }

  lemma RetryOther(s: State, o: string, retry: nat, backoff: nat, id: string)
    requires Sound(s) && o != id
    ensures Same(s, Rearm(s, o, retry, backoff), id)
  {
    var r := s.(rows := s.rows[o := s.now + backoff]);
    RowOther(s, o, s.now + backoff, id);
    ArmOther(r, Timer(o, retry, s.now, s.now + backoff), id);
    SameThrough(s, r, Rearm(s, o, retry, backoff), id);
  }

  lemma EndsOther(s: State, f: Firing, ok: bool, id: string)
    requires Sound(s) && f.id != id
    ensures Same(s, HandlerEnds(s, f, ok), id)
  {
    var e := s.(running := s.running - multiset{f});
    assert Same(s, e, id) && Sound(e);
    RetryOther(e, f.id, f.retry + 1, Backoff(f.retry), id);
    SameThrough(s, e, Rearm(e, f.id, f.retry + 1, Backoff(f.retry)), id);
  }

  lemma DueOther(s: State, n: nat, id: string)
    requires Sound(s) && n in s.live && s.live[n].id != id
    ensures Same(s, TimerFires(s, n), id)
  {
  }

  lemma OtherSame(s: State, e: Event, id: string)
    requires Sound(s) && Enabled(s, e) && Undisturbed(e, id)
    requires e.Due? ==> s.live[e.timer].id != id
    requires e.Ends? ==> e.firing.id != id
    ensures Same(s, Step(s, e), id)
  {
    match e
    case Tick(_) =>
    case Set(o, time) => ScheduleOther(s, o, time, id);
    case Delete(o) =>
      ClearOther(s, o, id);
      assert Same(s, s.(rows := s.rows - {o}), id);
    case Due(n) => DueOther(s, n, id);
    case Ends(f, ok) => EndsOther(s, f, ok, id);
    case TriggerNow(o) =>
      ClearOther(s, o, id);
      FireOther(Clear(s, o), o, 0, id);
  }

  lemma SameStage(s: State, t: State, id: string, stage: Stage)
    requires At(s, id, stage) && Same(s, t, id) && Sound(t)
    ensures At(t, id, stage)
  {
  }

  lemma OthersKeep(s: State, e: Event, id: string, stage: Stage)
    requires At(s, id, stage) && Enabled(s, e) && Undisturbed(e, id)
    requires e.Due? ==> s.live[e.timer].id != id
    requires e.Ends? ==> e.firing.id != id
    ensures At(Step(s, e), id, stage) && Noted(s, e, id) == []
  {
    StepKeeps(s, e);
    OtherSame(s, e, id);
    SameStage(s, Step(s, e), id, stage);
  }

  lemma DueStage(s: State, n: nat, id: string, stage: Stage) returns (k: nat)
    requires At(s, id, stage) && Enabled(s, Due(n)) && s.live[n].id == id
    ensures stage == Armed(k) && At(Step(s, Due(n)), id, Handling(k)) && Noted(s, Due(n), id) == [Called(k)]
  {
    StepKeeps(s, Due(n));
    k := stage.k;
  }

  lemma EndStage(s: State, f: Firing, id: string, stage: Stage) returns (next: Stage)
    requires At(s, id, stage) && Enabled(s, Ends(f, false)) && f.id == id
    ensures stage == Handling(f.retry)
    ensures next == if f.retry < MAX_ALARM_RETRIES then Armed(f.retry + 1) else Over
    ensures At(Step(s, Ends(f, false)), id, next)
    ensures Noted(s, Ends(f, false), id) == if f.retry < MAX_ALARM_RETRIES then [Waits(Backoff(f.retry))] else []
  {
    StepKeeps(s, Ends(f, false));
    next := if f.retry < MAX_ALARM_RETRIES then Armed(f.retry + 1) else Over;
  }

  lemma NextStage(s: State, e: Event, id: string, stage: Stage) returns (next: Stage)
    requires At(s, id, stage) && Enabled(s, e) && Undisturbed(e, id)
    ensures At(Step(s, e), id, next) && Seen(next) == Seen(stage) + Noted(s, e, id)
  {
    if e.Due? && s.live[e.timer].id == id {
      var k := DueStage(s, e.timer, id, stage);
      next := Handling(k);
    } else if e.Ends? && e.firing.id == id {
      next := EndStage(s, e.firing, id, stage);
      SeenAfterEnd(e.firing.retry);
    } else {
      OthersKeep(s, e, id, stage);
      next := stage;
    }
  }

  lemma SeenAfterEnd(k: nat)
    ensures Seen(Armed(k + 1)) == Seen(Handling(k)) + [Waits(Backoff(k))]
    ensures Seen(Over) == Seen(Handling(MAX_ALARM_RETRIES)) + []
  {
  }

  lemma {:induction false} ChainStage(s: State, events: seq<Event>, id: string) returns (stage: Stage)
    requires At(s, id, Armed(0)) && Run(s, events).Some?
    requires forall e :: e in events ==> Undisturbed(e, id)
    ensures At(Run(s, events).value, id, stage) && Trace(s, events, id) == Seen(stage)
  {
    if events == [] {
      stage := Armed(0);
    } else {
      var front, e := events[..|events| - 1], events[|events| - 1];
      var before := ChainStage(s, front, id);
      stage := NextStage(Run(s, front).value, e, id, before);
    }
  }

  lemma {:induction false} AttemptsTotal(k: nat)
    ensures TotalWait(Attempts(k)) == (Pow2(k) - 1) * 1000
    ensures Calls(Attempts(k)) == seq(k, i requires 0 <= i < k => i)
  {
    if k > 0 {
      AttemptsTotal(k - 1);
      var before := Attempts(k - 1);
      var one := before + [Called(k - 1)];
      assert Attempts(k) == one + [Waits(Backoff(k - 1))];
      assert Attempts(k)[..|Attempts(k)| - 1] == one && one[..|one| - 1] == before;
    }
  }

  lemma {:induction false} AttemptsPrefix(k: nat, m: nat)
    requires k <= m
    ensures Attempts(k) <= Attempts(m) && (k < m ==> Attempts(k) + [Called(k)] <= Attempts(m))
    decreases m
  {
    if k < m {
      AttemptsPrefix(k, m - 1);
    }
  }

  /** Seven calls with retry counts 0 to 6, and 2^6 - 1 seconds of waiting between them. */
  lemma FullChainIs()
    ensures Calls(FullChain()) == [0, 1, 2, 3, 4, 5, 6] && TotalWait(FullChain()) == 63000
  {
    AttemptsTotal(6);
    assert FullChain()[..|FullChain()| - 1] == Attempts(6);
    assert Pow2(6) == 64;
  }

  /** The chain ends: whatever else happens meanwhile, what is seen of a failing alarm is a beginning of the full chain,
      and it is the full chain once neither timer nor call is left; the row is then gone as well. */
  lemma RetryChain(s: State, events: seq<Event>, id: string)
    requires At(s, id, Armed(0)) && Run(s, events).Some?
    requires forall e :: e in events ==> Undisturbed(e, id)
    ensures Trace(s, events, id) <= FullChain()
    ensures var t := Run(s, events).value;
            (NoTimer(t, id) && NotRunning(t, id)) ==> Trace(s, events, id) == FullChain() && id !in t.rows
  {
    var stage := ChainStage(s, events, id);
    if stage.Armed? || stage.Handling? {
      AttemptsPrefix(stage.k, MAX_ALARM_RETRIES);
    }
  }

  /** A first alarm starts such a chain. */
  lemma SetStartsChain(s: State, id: string, time: int)
    requires Sound(s) && s.wired && NotRunning(s, id)
    requires forall n :: n in s.live && s.live[n].id == id ==> id in s.timers && n == s.timers[id]
    ensures At(SetAlarm(s, id, time), id, Armed(0))
  {
  }
}

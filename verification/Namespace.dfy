/** A Durable Object namespace: the object that keeps a timer in memory for every alarm row of its class. */
module Namespace {
  import opened Basics
  import Alarms

  /** The rows of the alarm table that belong to one class; namespaces of that class share it. */
  class AlarmTable {
    var rows: map<string, int>

    constructor (rows: map<string, int>)
      ensures this.rows == rows
    {
      this.rows := rows;
    }

    /** All rows, each once, in whatever order the database returns them. */
    method Ids() returns (ids: seq<string>)
      ensures forall id :: id in ids <==> id in rows
      ensures forall i, j :: 0 <= i < j < |ids| ==> ids[i] != ids[j]
    {
      ids := [];
      var left := rows.Keys;
      while left != {}
        invariant forall id :: id in rows <==> id in left || id in ids
        invariant forall id :: id in ids ==> id !in left
        invariant forall i, j :: 0 <= i < j < |ids| ==> ids[i] != ids[j]
        decreases left
      {
        var id :| id in left;
        ids, left := ids + [id], left - {id};
      }
    }
  }

  /** The clock of the process, which every namespace reads. */
  class Clock {
    var now: int

    constructor (now: int)
      ensures this.now == now
    {
      this.now := now;
    }

    method Tick(to: int)
      requires now <= to
      modifies this
      ensures now == to
    {
      now := to;
    }
  }

  class DurableObjectNamespace {
    const className: string
    const table: AlarmTable
    const clock: Clock
    var alarmTimers: map<string, nat>
    /** The timeouts of this namespace still held by the event loop, and the next timeout id. */
    var live: map<nat, Alarms.Timer>
    var next: nat
    var wired: bool
    ghost var running: multiset<Alarms.Firing>
    /** It has been given a class, and its timers have not been cleared since. */
    ghost var attached: bool

    constructor (className: string, table: AlarmTable, clock: Clock)
      ensures this.className == className && this.table == table && this.clock == clock && Valid() && !attached
      ensures State() == Alarms.Fresh(table.rows, clock.now)
    {
      this.className, this.table, this.clock := className, table, clock;
      alarmTimers, live, next, wired := map[], map[], 0, false;
      running, attached := multiset{}, false;
    }

    ghost function State(): Alarms.State
      reads this`alarmTimers, this`live, this`next, this`wired, this`running, table`rows, clock`now
    {
      Alarms.State(table.rows, alarmTimers, live, next, clock.now, wired, running)
    }

    /** Every entry is the timer of a persisted alarm, and while attached every persisted alarm has its entry. */
    ghost predicate Valid()
      reads this`alarmTimers, this`live, this`next, this`wired, this`running, this`attached, table`rows, clock`now
    {
      Alarms.Sound(State()) && (attached ==> wired && Alarms.Agrees(State()))
    }

    /** Attached, and so with a timer for every persisted alarm. */
    ghost predicate Held()
      reads this`alarmTimers, this`live, this`next, this`wired, this`running, this`attached, table`rows, clock`now
    {
      Valid() && attached
    }

    /** The entry of `id` is a timer for this attempt, armed now and due at that time. */
    ghost predicate Set(id: string, retry: nat, due: int)
      reads this`alarmTimers, this`live, clock`now
    {
      id in alarmTimers && alarmTimers[id] in live && live[alarmTimers[id]] == Alarms.Timer(id, retry, clock.now, due)
    }

    method ClearTimeout(id: string)
      modifies this`live, this`alarmTimers
      ensures State() == Alarms.Clear(old(State()), id)
    {
      if id in alarmTimers {
        live := live - {alarmTimers[id]};
        alarmTimers := alarmTimers - {id};
      }
    }

    method SetTimeout(t: Alarms.Timer)
      modifies this`live, this`alarmTimers, this`next
      ensures State() == Alarms.Arm(old(State()), t)
    {
      live, alarmTimers, next := live[next := t], alarmTimers[t.id := next], next + 1;
    }

    method ScheduleAlarmTimer(id: string, time: int)
      modifies this`live, this`alarmTimers, this`next
      ensures State() == Alarms.Schedule(old(State()), id, time)
      ensures Set(id, 0, Max(clock.now, time)) && alarmTimers - {id} == old(alarmTimers) - {id}
      ensures old(Valid()) && id in table.rows && table.rows[id] == time ==> Valid()
    {
      if Valid() && id in table.rows && table.rows[id] == time {
        Alarms.RestoreOne(State(), id);
      }
      ClearTimeout(id);
      SetTimeout(Alarms.Timer(id, 0, clock.now, clock.now + Max(0, time - clock.now)));
    }

    /** The row and the timer are replaced together. */
    method SetAlarm(id: string, time: int)
      requires Valid()
      modifies this, table
      ensures Valid() && attached == old(attached) && State() == Alarms.SetAlarm(old(State()), id, time)
      ensures table.rows == old(table.rows)[id := time]
      ensures Set(id, 0, Max(clock.now, time)) && alarmTimers - {id} == old(alarmTimers) - {id}
      ensures id in old(alarmTimers) ==> old(alarmTimers[id]) !in live
    {
      Alarms.SetKeeps(State(), id, time);
      table.rows := table.rows[id := time];
      ScheduleAlarmTimer(id, time);
    }

    method DeleteAlarm(id: string)
      requires Valid()
      modifies this, table
      ensures Valid() && attached == old(attached) && State() == Alarms.DeleteAlarm(old(State()), id)
      ensures table.rows == old(table.rows) - {id} && alarmTimers == old(alarmTimers) - {id}
      ensures id in old(alarmTimers) ==> old(alarmTimers[id]) !in live
    {
      Alarms.DeleteKeeps(State(), id);
      table.rows := table.rows - {id};
      ClearTimeout(id);
    }

    method CancelAlarm(id: string)
      requires Valid()
      modifies this, table
      ensures Valid() && attached == old(attached) && State() == Alarms.DeleteAlarm(old(State()), id)
      ensures table.rows == old(table.rows) - {id} && alarmTimers == old(alarmTimers) - {id}
      ensures id in old(alarmTimers) ==> old(alarmTimers[id]) !in live
    {
      Alarms.DeleteKeeps(State(), id);
      ClearTimeout(id);
      table.rows := table.rows - {id};
    }

    /** Deleting an instance cancels its alarm and, with its other rows, deletes the alarm row once more. */
    method DeleteInstance(id: string)
      requires Valid()
      modifies this, table
      ensures Valid() && attached == old(attached) && State() == Alarms.DeleteAlarm(old(State()), id)
      ensures table.rows == old(table.rows) - {id} && alarmTimers == old(alarmTimers) - {id}
    {
      CancelAlarm(id);
      table.rows := table.rows - {id};
    }

    /** Up to the call of the handler. */
    method FireAlarm(id: string, retry: nat)
      modifies this`running, table
      ensures State() == Alarms.Fire(old(State()), id, retry)
    {
      if !wired {
        return;
      }
      table.rows := table.rows - {id};
      running := running + multiset{Alarms.Firing(id, retry)};
    }

    /** The entry goes; the handler is called, with the row deleted first, if there is a class. */
    method TimerFires(n: nat)
      requires Valid() && n in live && live[n].due <= clock.now
      modifies this, table
      ensures Valid() && attached == old(attached) && State() == Alarms.TimerFires(old(State()), n)
      ensures var t := old(live[n]);
              && n !in live && alarmTimers == old(alarmTimers) - {t.id}
              && table.rows == (if wired then old(table.rows) - {t.id} else old(table.rows))
              && running == (if wired then old(running) + multiset{Alarms.Firing(t.id, t.retry)} else old(running))
    {
      Alarms.DueKeeps(State(), n);
      var t := live[n];
      live := live - {n};
      alarmTimers := alarmTimers - {t.id};
      FireAlarm(t.id, t.retry);
    }

    /** After the handler has returned or thrown: a failure short of the last attempt is persisted and set again. */
    method HandlerEnds(id: string, retry: nat, ok: bool)
      requires Valid()
      modifies this, table
      ensures Valid() && attached == old(attached)
      ensures State() == Alarms.HandlerEnds(old(State()), Alarms.Firing(id, retry), ok)
      ensures Alarms.Ended(old(State()), State(), id, retry, ok)
    {
      CallEnds(id, retry);
      if !ok && retry < Alarms.MAX_ALARM_RETRIES {
        Rearm(id, retry + 1, Alarms.Backoff(retry));
      }
      Alarms.EndsEffect(old(State()), id, retry, ok);
    }

    method CallEnds(id: string, retry: nat)
      modifies this`running
      ensures old(Valid()) ==> Valid()
      ensures State() == old(State()).(running := old(running) - multiset{Alarms.Firing(id, retry)})
    {
      running := running - multiset{Alarms.Firing(id, retry)};
    }

    /** Persists an alarm again and sets its timer, without clearing one that is set. */
    method Rearm(id: string, retry: nat, backoff: nat)
      modifies this`live, this`alarmTimers, this`next, table
      ensures State() == Alarms.Rearm(old(State()), id, retry, backoff)
      ensures table.rows == old(table.rows)[id := clock.now + backoff]
      ensures Set(id, retry, clock.now + backoff) && alarmTimers - {id} == old(alarmTimers) - {id}
      ensures old(Valid()) ==> Valid()
    {
      if Valid() {
        Alarms.RearmKeeps(State(), id, retry, backoff);
      }
      table.rows := table.rows[id := clock.now + backoff];
      SetTimeout(Alarms.Timer(id, retry, clock.now, clock.now + backoff));
    }

    /** Fires one alarm at once, whether or not a timer is set for it. */
    method TriggerAlarm(id: string)
      requires Valid()
      modifies this`live, this`alarmTimers, this`running, table
      ensures Valid() && State() == Alarms.Trigger(old(State()), id)
      ensures alarmTimers == old(alarmTimers) - {id}
      ensures table.rows == if wired then old(table.rows) - {id} else old(table.rows)
    {
      Alarms.TriggerKeeps(State(), id);
      ClearTimeout(id);
      FireAlarm(id, 0);
    }

    /** One event of the state machine, if it can happen here: a namespace is attached and cleared by its manager, and
        time passes for all of them at once. */
    method Take(e: Alarms.Event) returns (taken: bool)
      requires Valid()
      modifies this, table
      ensures Valid() && attached == old(attached)
      ensures taken <==> e.Set? || e.Delete? || e.TriggerNow? || e.Ends? || (e.Due? && old(Alarms.Enabled(State(), e)))
      ensures if taken then State() == Alarms.Apply(old(State()), e) else State() == old(State())
    {
      taken := true;
      match e
      case Set(id, time) => SetAlarm(id, time);
      case Delete(id) => DeleteAlarm(id);
      case TriggerNow(id) => TriggerAlarm(id);
      case Ends(f, ok) => HandlerEnds(f.id, f.retry, ok);
      case Due(n) =>
        taken := n in live && live[n].due <= clock.now;
        if taken {
          TimerFires(n);
        }
      case _ => taken := false;
    }

    /** Fires every alarm that is due, and no other. */
    method FireReadyAlarms() returns (fired: seq<string>)
      requires Valid()
      modifies this`live, this`alarmTimers, this`running, table
      ensures Valid() && State() == Alarms.FireAll(old(State()), fired)
      ensures forall id :: id in fired <==> id in old(table.rows) && old(table.rows)[id] <= clock.now
      ensures forall i, j :: 0 <= i < j < |fired| ==> fired[i] != fired[j]
    {
      var ids := table.Ids();
      var rows, time := table.rows, clock.now;
      fired := [];
      for i := 0 to |ids|
        invariant Valid() && State() == Alarms.FireAll(old(State()), fired) && clock.now == time
        invariant forall id :: id in fired <==> id in ids[..i] && rows[id] <= time
        invariant forall i, j :: 0 <= i < j < |fired| ==> fired[i] != fired[j]
      {
        if rows[ids[i]] <= time {
          TriggerAlarm(ids[i]);
          assert ids[i] !in fired;
          var longer := fired + [ids[i]];
          assert longer[..|longer| - 1] == fired;
          fired := longer;
        }
      }
      assert ids[..|ids|] == ids;
    }

    method RestoreAlarms() returns (order: seq<string>)
      modifies this`live, this`alarmTimers, this`next
      ensures old(Valid()) ==> Valid() && Alarms.Agrees(State())
      ensures forall id :: id in order <==> id in table.rows
      ensures State() == Alarms.Restore(old(State()), order)
    {
      ghost var sound := Valid();
      order := table.Ids();
      for i := 0 to |order|
        invariant forall id :: id in order[..i] ==> id in table.rows
        invariant sound ==> Valid()
        invariant State() == Alarms.Restore(old(State()), order[..i])
      {
        assert order[..i + 1][..i] == order[..i];
        ScheduleAlarmTimer(order[i], table.rows[order[i]]);
      }
      assert order[..|order|] == order;
      if sound {
        Alarms.RestoreAgrees(old(State()), order);
      }
    }

    /** The namespace gets a class, or the next generation's, and a timer for each of its alarms. */
    method SetClass() returns (order: seq<string>)
      modifies this`live, this`alarmTimers, this`next, this`wired, this`attached
      ensures wired && (old(Valid()) ==> Held())
      ensures forall id :: id in order <==> id in table.rows
      ensures State() == Alarms.Restore(old(State()).(wired := true), order)
    {
      if Valid() {
        SoundWired(State());
      }
      wired := true;
      order := RestoreAlarms();
      attached := true;
    }

    /** The alarms stay persisted for the next generation to restore. */
    method ClearAlarmTimers()
      modifies this`live, this`alarmTimers, this`attached
      ensures !attached && alarmTimers == map[] && State() == Alarms.ClearAll(old(State()))
      ensures old(Valid()) ==> Valid()
      ensures forall n :: n in live ==> n in old(live) && n !in old(alarmTimers).Values
    {
      ghost var held := live;
      var left := alarmTimers.Keys;
      while left != {}
        invariant left <= alarmTimers.Keys && alarmTimers == old(alarmTimers)
        invariant live == held - set id | id in alarmTimers && id !in left :: alarmTimers[id]
        decreases left
      {
        var id :| id in left;
        live, left := live - {alarmTimers[id]}, left - {id};
      }
      assert (set id | id in alarmTimers && id !in left :: alarmTimers[id]) == alarmTimers.Values;
      alarmTimers, attached := map[], false;
    }
  }

  lemma SoundWired(s: Alarms.State)
    requires Alarms.Sound(s)
    ensures Alarms.Sound(s.(wired := true))
  {
  }

  lemma TriggerEffect(s: Alarms.State, id: string)
    requires s.wired
    ensures var t := Alarms.Trigger(s, id);
            t.wired && t.now == s.now && t.rows == s.rows - {id}
                && t.running == s.running + multiset{Alarms.Firing(id, 0)}
  {
  }

  /** Firing what is due leaves exactly the rows that are not. */
  lemma {:induction false} OnlyLaterRowsRemain(s: Alarms.State, ids: seq<string>)
    requires s.wired
    ensures var t := Alarms.FireAll(s, ids);
            t.wired && t.now == s.now && t.rows == (map id | id in s.rows && id !in ids :: s.rows[id])
  {
    if ids != [] {
      var front := ids[..|ids| - 1];
      OnlyLaterRowsRemain(s, front);
      TriggerEffect(Alarms.FireAll(s, front), ids[|ids| - 1]);
      assert ids == front + [ids[|ids| - 1]];
    }
  }

  /** Each fired alarm has one more call under way, and no other. */
  lemma {:induction false} OneCallEach(s: Alarms.State, ids: seq<string>, f: Alarms.Firing)
    requires s.wired && forall i, j :: 0 <= i < j < |ids| ==> ids[i] != ids[j]
    ensures Alarms.FireAll(s, ids).wired
    ensures Alarms.FireAll(s, ids).running[f] == s.running[f] + if f.id in ids && f.retry == 0 then 1 else 0
  {
    if ids != [] {
      var front, last := ids[..|ids| - 1], ids[|ids| - 1];
      OneCallEach(s, front, f);
      TriggerEffect(Alarms.FireAll(s, front), last);
      assert ids == front + [last] && last !in front;
    }
  }
}

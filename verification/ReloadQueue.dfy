/** Coalesced reloads: callers, runs and the one follow-up that callers arriving during a run share. */
module ReloadQueue {
  import opened Basics

  /** A run is over when its promise settles; its leader's `finally` then clears the manager's two fields. */
  datatype Stage = Running | Settled | Cleared

  datatype Run = Run(started: nat, stage: Stage)

  /** The promise a caller got: a run it leads, or the follow-up of the run it found. */
  datatype Promise = OfRun(run: nat) | OfFollowUp(followUp: nat)

  datatype Call = Call(at: nat, promise: Promise)

  /** Waits for `run`, and then calls `reload` itself. */
  datatype FollowUp = FollowUp(run: nat, call: Option<nat>)

  datatype State = State(
    clock: nat, reloading: Option<nat>, pending: Option<nat>, runs: seq<Run>, followUps: seq<FollowUp>,
        calls: seq<Call>)

  const START: State := State(0, None, None, [], [], [])

  function Reload(s: State): State {
    if s.reloading.Some? then
      var t := if s.pending.Some? then s
               else s.(followUps := s.followUps + [FollowUp(s.reloading.value, None)], pending := Some(|s.followUps|));
      t.(calls := s.calls + [Call(s.clock, OfFollowUp(t.pending.value))])
    else
      s.(reloading := Some(|s.runs|), runs := s.runs + [Run(s.clock, Running)],
          calls := s.calls + [Call(s.clock, OfRun(|s.runs|))])
  }

  /** A caller, the end of a run, its `finally`, and a follow-up whose turn has come. The leader was the first to wait
      for the run, so its `finally` precedes the follow-up. */
  datatype Event = Calls | Settles(run: nat) | Finally(run: nat) | Fires(followUp: nat)

  predicate Enabled(s: State, e: Event) {
    match e
    case Calls => true
    case Settles(r) => r < |s.runs| && s.runs[r].stage == Running
    case Finally(r) => r < |s.runs| && s.runs[r].stage == Settled
    case Fires(f) =>
      f < |s.followUps| && s.followUps[f].call.None? && s.followUps[f].run < |s.runs|
      && s.runs[s.followUps[f].run].stage == Cleared
  }

  function AtStage(s: State, r: nat, stage: Stage): State
    requires r < |s.runs|
  {
    s.(runs := s.runs[r := s.runs[r].(stage := stage)])
  }

  function Marked(s: State, f: nat): State
    requires f < |s.followUps|
  {
    s.(followUps := s.followUps[f := s.followUps[f].(call := Some(|s.calls|))])
  }

  function Step(s: State, e: Event): State
    requires Enabled(s, e)
  {
    var t := s.(clock := s.clock + 1);
    match e
    case Calls => Reload(t)
    case Settles(r) => AtStage(t, r, Settled)
    case Finally(r) => AtStage(t, r, Cleared).(reloading := None, pending := None)
    case Fires(f) => Reload(Marked(t, f))
  }

  function After(events: seq<Event>): Option<State> {
    if events == [] then Some(START)
    else
      var before :- After(events[..|events| - 1]);
      if Enabled(before, events[|events| - 1]) then Some(Step(before, events[|events| - 1])) else None
  }

  // ---- Invariants ----

  /** Only the newest run may be under way, and it is the one the manager holds. */
  ghost predicate OneRun(s: State) {
    && (s.reloading.Some? ==> s.reloading.value == |s.runs| - 1 && s.runs[|s.runs| - 1].stage != Cleared)
    && (forall r :: 0 <= r < |s.runs| && s.reloading != Some(r) ==> s.runs[r].stage == Cleared)
    && (forall r :: 0 <= r < |s.runs| ==> s.runs[r].started <= s.clock)
  }

  /** One follow-up a run; that of the current run is the pending one and has not called yet. */
  ghost predicate OneFollowUp(s: State) {
    && (forall f :: 0 <= f < |s.followUps| ==> s.followUps[f].run < |s.runs|)
    && (forall f, g :: 0 <= f < g < |s.followUps| ==> s.followUps[f].run != s.followUps[g].run)
    && (forall f :: 0 <= f < |s.followUps| && s.reloading == Some(s.followUps[f].run) ==> s.pending == Some(f))
    && (s.pending.Some? ==> s.pending.value < |s.followUps| && s.reloading == Some(s.followUps[s.pending.value].run)
                            && s.followUps[s.pending.value].call.None?)
  }

  /** A caller leads a run that starts with its call, or waits for a follow-up that will call later. */
  ghost predicate GoodCall(s: State, c: nat)
    requires c < |s.calls|
  {
    s.calls[c].at <= s.clock &&
    match s.calls[c].promise
    case OfRun(r) => r < |s.runs| && s.runs[r].started == s.calls[c].at
    case OfFollowUp(f) =>
      f < |s.followUps| && s.followUps[f].run < |s.runs| && s.runs[s.followUps[f].run].started <= s.calls[c].at
      && (s.followUps[f].call.Some? ==>
            var d := s.followUps[f].call.value; c < d < |s.calls| && s.calls[c].at <= s.calls[d].at)
  }

  ghost predicate Inv(s: State) {
    OneRun(s) && OneFollowUp(s) && forall c :: 0 <= c < |s.calls| ==> GoodCall(s, c)
  }

  lemma ReloadKeeps(s: State)
    requires OneRun(s) && OneFollowUp(s)
    ensures OneRun(Reload(s)) && OneFollowUp(Reload(s))
  {
  }

  lemma ReloadAdds(s: State)
    requires OneFollowUp(s)
    ensures var t := Reload(s);
            s.calls <= t.calls && |t.calls| == |s.calls| + 1 && t.calls[|s.calls|].at == s.clock == t.clock
            && s.followUps <= t.followUps && s.runs <= t.runs
  {
  }

  lemma NewCallGood(s: State)
    requires OneRun(s) && OneFollowUp(s)
    ensures |Reload(s).calls| == |s.calls| + 1 && GoodCall(Reload(s), |s.calls|)
  {
  }

  lemma CallsKeep(s: State)
    requires Inv(s)
    ensures Inv(Reload(s))
  {
    ReloadKeeps(s);
    ReloadAdds(s);
    NewCallGood(s);
    var t := Reload(s);
    forall c | 0 <= c < |s.calls| ensures GoodCall(t, c) {
      assert GoodCall(s, c);
    }
  }

  lemma GoodAfterFire(s: State, f: nat, c: nat)
    requires Inv(s) && Enabled(s, Fires(f)) && c < |s.calls|
    ensures var t := Reload(Marked(s, f)); c < |t.calls| && GoodCall(t, c)
  {
    assert GoodCall(s, c);
    var m := Marked(s, f);
    ReloadAdds(m);
    assert Reload(m).calls[c] == s.calls[c];
    if s.calls[c].promise.OfFollowUp? {
      assert Reload(m).followUps[s.calls[c].promise.followUp] == m.followUps[s.calls[c].promise.followUp];
    }
  }

  lemma FiresKeep(s: State, f: nat)
    requires Inv(s) && Enabled(s, Fires(f))
    ensures Inv(Reload(Marked(s, f)))
  {
    var m := Marked(s, f);
    ReloadKeeps(m);
    NewCallGood(m);
    var t := Reload(m);
    forall c | 0 <= c < |t.calls| ensures GoodCall(t, c) {
      if c < |s.calls| {
        GoodAfterFire(s, f, c);
      }
    }
  }

  lemma StageKeeps(s: State, r: nat, stage: Stage)
    requires Inv(s) && r < |s.runs|
    requires (stage == Settled && s.runs[r].stage == Running) || (stage == Cleared && s.runs[r].stage == Settled)
    ensures var t := AtStage(s, r, stage);
            Inv(if stage == Settled then t else t.(reloading := None, pending := None))
  {
    var t := AtStage(s, r, stage);
    var u := if stage == Settled then t else t.(reloading := None, pending := None);
    forall c | 0 <= c < |u.calls| ensures GoodCall(u, c) {
      assert GoodCall(s, c);
    }
  }

  lemma TickKeeps(s: State)
    requires Inv(s)
    ensures Inv(s.(clock := s.clock + 1))
  {
    var t := s.(clock := s.clock + 1);
    forall c | 0 <= c < |t.calls| ensures GoodCall(t, c) {
      assert GoodCall(s, c);
    }
  }

  lemma StepKeeps(s: State, e: Event)
    requires Inv(s) && Enabled(s, e)
    ensures Inv(Step(s, e))
  {
    var t := s.(clock := s.clock + 1);
    TickKeeps(s);
    match e
    case Calls => CallsKeep(t);
    case Fires(f) => FiresKeep(t, f);
    case Settles(r) => StageKeeps(t, r, Settled);
    case Finally(r) => StageKeeps(t, r, Cleared);
  }

  lemma {:induction false} Reachable(events: seq<Event>)
    requires After(events).Some?
    ensures Inv(After(events).value)
  {
    if events != [] {
      Reachable(events[..|events| - 1]);
      StepKeeps(After(events[..|events| - 1]).value, events[|events| - 1]);
    }
  }

  // ---- What callers get ----

  /** The run whose outcome caller `c` gets, once it is known. */
  function RunOf(s: State, c: nat): Option<nat>
    requires c < |s.calls|
    decreases |s.calls| - c
  {
    match s.calls[c].promise
    case OfRun(r) => Some(r)
    case OfFollowUp(f) =>
      if f < |s.followUps| && s.followUps[f].call.Some? && c < s.followUps[f].call.value < |s.calls|
      then RunOf(s, s.followUps[f].call.value)
      else None
  }

  /** Runs never overlap: when one is under way every earlier one is over and its fields cleared. */
  lemma NoOverlap(events: seq<Event>, q: nat, r: nat)
    requires After(events).Some?
    requires var s := After(events).value; q < |s.runs| && r < |s.runs| && s.runs[r].stage != Cleared && q != r
    ensures After(events).value.runs[q].stage == Cleared && q < r
  {
    Reachable(events);
  }

  lemma {:induction false} RunIsFresh(s: State, c: nat)
    requires Inv(s) && c < |s.calls| && RunOf(s, c).Some?
    ensures RunOf(s, c).value < |s.runs| && s.calls[c].at <= s.runs[RunOf(s, c).value].started
    decreases |s.calls| - c
  {
    assert GoodCall(s, c);
    match s.calls[c].promise
    case OfRun(_) =>
    case OfFollowUp(f) => RunIsFresh(s, s.followUps[f].call.value);
  }

  /** Freshness: what a caller gets is the outcome of a run that started no earlier than its call. */
  lemma Freshness(events: seq<Event>, c: nat)
    requires After(events).Some? && c < |After(events).value.calls|
    ensures var s := After(events).value;
            RunOf(s, c).Some? ==> RunOf(s, c).value < |s.runs| && s.calls[c].at <= s.runs[RunOf(s, c).value].started
  {
    Reachable(events);
    if RunOf(After(events).value, c).Some? {
      RunIsFresh(After(events).value, c);
    }
  }

  /** A caller during a run joins that run's follow-up; otherwise it leads a new run. */
  lemma Joins(events: seq<Event>)
    requires After(events).Some?
    ensures var s := After(events).value;
            var promise := Reload(s).calls[|s.calls|].promise;
            if s.reloading.Some? then promise.OfFollowUp? && promise.followUp < |Reload(s).followUps|
                                      && Reload(s).followUps[promise.followUp].run == s.reloading.value
            else promise == OfRun(|s.runs|)
  {
    Reachable(events);
  }

  /** All callers that arrived during one run share one follow-up. */
  lemma Shared(events: seq<Event>, c: nat, d: nat)
    requires After(events).Some?
    requires var s := After(events).value;
             c < |s.calls| && d < |s.calls| && s.calls[c].promise.OfFollowUp? && s.calls[d].promise.OfFollowUp?
    ensures var s := After(events).value;
            var f, g := s.calls[c].promise.followUp, s.calls[d].promise.followUp;
            f < |s.followUps| && g < |s.followUps|
                && (s.followUps[f].run == s.followUps[g].run ==> f == g && RunOf(s, c) == RunOf(s, d))
  {
    Reachable(events);
    var s := After(events).value;
    assert GoodCall(s, c) && GoodCall(s, d);
  }

  /** The `finally` of a run clears that run and its own follow-up, never newer ones. */
  lemma FinallyClearsItsOwn(events: seq<Event>, r: nat)
    requires After(events).Some? && Enabled(After(events).value, Finally(r))
    ensures var s := After(events).value;
            s.reloading == Some(r)
            && (s.pending.Some? ==> s.pending.value < |s.followUps| && s.followUps[s.pending.value].run == r)
  {
    Reachable(events);
  }

  // ---- Every caller is answered ----

  function Weight(s: State, f: nat): nat
    requires f < |s.followUps|
  {
    if s.followUps[f].call.Some? then 0
    else if s.followUps[f].run < |s.runs| && s.runs[s.followUps[f].run].stage == Cleared then 4
    else 3
  }

  function Weights(s: State, n: nat): nat
    requires n <= |s.followUps|
  {
    if n == 0 then 0 else Weights(s, n - 1) + Weight(s, n - 1)
  }

  /** What is still to happen if nobody calls any more. */
  function Left(s: State): nat {
    Weights(s, |s.followUps|) +
    if s.reloading.None? || s.reloading.value >= |s.runs| then 0
    else if s.runs[s.reloading.value].stage == Running then 3 else 2
  }

  lemma {:induction false} WeightsAgree(s: State, t: State, n: nat)
    requires n <= |s.followUps| && n <= |t.followUps|
    requires forall f :: 0 <= f < n ==> Weight(s, f) == Weight(t, f)
    ensures Weights(s, n) == Weights(t, n)
  {
    if n > 0 {
      WeightsAgree(s, t, n - 1);
    }
  }

  lemma {:induction false} WeightsDiffer(s: State, t: State, n: nat, g: nat)
    requires g < n <= |s.followUps| && n <= |t.followUps|
    requires forall f :: 0 <= f < n && f != g ==> Weight(s, f) == Weight(t, f)
    ensures Weights(t, n) == Weights(s, n) - Weight(s, g) + Weight(t, g)
  {
    if n == g + 1 {
      WeightsAgree(s, t, g);
    } else {
      WeightsDiffer(s, t, n - 1, g);
    }
  }

  lemma ReloadWeighs(s: State)
    requires OneRun(s) && OneFollowUp(s)
    ensures Left(Reload(s)) <= Left(s) + 3
  {
    var t := Reload(s);
    WeightsAgree(s, t, |s.followUps|);
  }

  lemma FinallyDecreases(s: State, r: nat)
    requires Inv(s) && r < |s.runs| && s.runs[r].stage == Settled
    ensures Left(AtStage(s, r, Cleared).(reloading := None, pending := None)) < Left(s)
  {
    var t := AtStage(s, r, Cleared).(reloading := None, pending := None);
    if s.pending.Some? {
      WeightsDiffer(s, t, |s.followUps|, s.pending.value);
    } else {
      WeightsAgree(s, t, |s.followUps|);
    }
  }

  lemma FiresDecreases(s: State, f: nat)
    requires Inv(s) && Enabled(s, Fires(f))
    ensures Left(Reload(Marked(s, f))) < Left(s)
  {
    var m := Marked(s, f);
    WeightsDiffer(s, m, |s.followUps|, f);
    ReloadWeighs(m);
  }

  lemma StepDecreases(s: State, e: Event)
    requires Inv(s) && Enabled(s, e) && !e.Calls?
    ensures Left(Step(s, e)) < Left(s)
  {
    var t := s.(clock := s.clock + 1);
    TickKeeps(s);
    WeightsAgree(s, t, |s.followUps|);
    match e
    case Settles(r) => WeightsAgree(t, Step(s, e), |s.followUps|);
    case Finally(r) => FinallyDecreases(t, r);
    case Fires(f) => FiresDecreases(t, f);
  }

  lemma RunMoves(s: State)
    requires OneRun(s)
    ensures s.reloading == None || Enabled(s, Settles(|s.runs| - 1)) || Enabled(s, Finally(|s.runs| - 1))
  {
  }

  lemma {:induction false} AllAnswered(s: State, c: nat)
    requires Inv(s) && c < |s.calls|
    requires forall e: Event :: !e.Calls? ==> !Enabled(s, e)
    ensures RunOf(s, c).Some? && RunOf(s, c).value < |s.runs| && s.runs[RunOf(s, c).value].stage == Cleared
    decreases |s.calls| - c
  {
    assert GoodCall(s, c);
    RunMoves(s);
    match s.calls[c].promise
    case OfRun(_) =>
    case OfFollowUp(f) =>
      assert !Enabled(s, Fires(f));
      AllAnswered(s, s.followUps[f].call.value);
  }

  /** Once nobody calls any more every step brings the end nearer, and at the end every caller has the outcome of a run
      that is over. */
  lemma EveryCallerIsAnswered(events: seq<Event>)
    requires After(events).Some?
    ensures var s := After(events).value;
            (forall e: Event :: !e.Calls? && Enabled(s, e) ==> Left(Step(s, e)) < Left(s))
            && ((forall e: Event :: !e.Calls? ==> !Enabled(s, e)) ==>
                  forall c :: 0 <= c < |s.calls| ==>
                    RunOf(s, c).Some? && RunOf(s, c).value < |s.runs| && s.runs[RunOf(s, c).value].stage == Cleared)
  {
    Reachable(events);
    var s := After(events).value;
    forall e: Event | !e.Calls? && Enabled(s, e) ensures Left(Step(s, e)) < Left(s) {
      StepDecreases(s, e);
    }
    if forall e: Event :: !e.Calls? ==> !Enabled(s, e) {
      forall c: nat | c < |s.calls|
        ensures RunOf(s, c).Some? && RunOf(s, c).value < |s.runs| && s.runs[RunOf(s, c).value].stage == Cleared
      {
        AllAnswered(s, c);
      }
    }
  }
}

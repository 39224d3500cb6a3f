/** The life of generations as a state machine: reload, drain, stop, forget, and who is told to resume workflows. */
module Lifecycle {
  import opened Basics

  datatype Phase = Active | Draining | Stopped

  /** `phases` and `workflows` of the generations still listed, `next` the next id, `windows` the generations whose
      grace window is open; `resumes` records every generation told to resume its workflows, in order. */
  datatype Life = Life(
    phases: map<nat, Phase>, workflows: set<nat>, next: nat, active: Option<nat>, windows: set<nat>, resumed: set<nat>,
    resumes: seq<nat>)

  const START: Life := Life(map[], {}, 1, None, {}, {}, [])

  function Drain(l: Life, id: nat): Life {
    if id in l.phases && l.phases[id] != Stopped then l.(phases := l.phases[id := Draining]) else l
  }

  function Stop(l: Life, id: nat): Life {
    if id in l.phases then l.(phases := l.phases[id := Stopped]) else l
  }

  function Resume(l: Life, id: nat): Life {
    if id in l.workflows && id !in l.resumed then l.(resumed := l.resumed + {id}, resumes := l.resumes + [id]) else l
  }

  predicate OlderStopped(l: Life, id: nat) {
    forall o <- l.phases :: o < id ==> l.phases[o] == Stopped
  }

  /** A drained generation stops; the active one is told once all older ones have. */
  function Finish(l: Life, id: nat): Life {
    var s := Stop(l, id);
    if s.active.Some? && s.active.value in s.phases && OlderStopped(s, s.active.value) then
      Resume(s, s.active.value)
    else s
  }

  function GraceEnd(l: Life, id: nat): Life {
    Finish(l.(windows := l.windows - {id}), id)
  }

  function Forget(l: Life, id: nat): Life {
    l.(phases := l.phases - {id}, workflows := l.workflows - {id}, resumed := l.resumed - {id})
  }

  function Added(l: Life, workflows: bool): Life {
    l.(phases := l.phases[l.next := Active], next := l.next + 1,
       workflows := if workflows then l.workflows + {l.next} else l.workflows)
  }

  /** The active generation, if it is still in use, drains; it is finished at once when it is idle, else when its grace
      window ends. */
  function Retire(l: Life, idle: bool): Life {
    if l.active.None? || l.active.value !in l.phases || l.phases[l.active.value] != Active then l
    else
      var drained := Drain(l, l.active.value);
      if idle then Finish(drained, l.active.value) else drained.(windows := l.windows + {l.active.value})
  }

  /** Told at once only when it is the first; otherwise when the older ones are gone. */
  function Activate(l: Life, id: nat): Life {
    var t := l.(active := Some(id));
    if l.active.None? then Resume(t, id) else t
  }

  function Reload(l: Life, workflows: bool, idle: bool): Life {
    Activate(Retire(Added(l, workflows), idle), l.next)
  }

  /** Grace windows end, and generations are drained, stopped and forgotten, at any moment. */
  datatype Event =
    | Reloads(workflows: bool, idle: bool)
    | GraceEnds(id: nat)
    | ForceDrain(id: nat)
    | ForceStop(id: nat)
    | Forgets(id: nat)

  predicate Enabled(l: Life, e: Event) {
    match e
    case GraceEnds(id) => id in l.windows
    case Forgets(id) => id in l.phases && l.phases[id] == Stopped
    case _ => true
  }

  function Step(l: Life, e: Event): Life {
    match e
    case Reloads(workflows, idle) => Reload(l, workflows, idle)
    case GraceEnds(id) => GraceEnd(l, id)
    case ForceDrain(id) => Drain(l, id)
    case ForceStop(id) => Stop(l, id)
    case Forgets(id) => Forget(l, id)
  }

  function Run(events: seq<Event>): Option<Life> {
    if events == [] then Some(START)
    else
      var before :- Run(events[..|events| - 1]);
      if Enabled(before, events[|events| - 1]) then Some(Step(before, events[|events| - 1])) else None
  }

  /** Stopped, and perhaps forgotten since. */
  predicate Gone(l: Life, id: nat) {
    0 < id < l.next && (id in l.phases ==> l.phases[id] == Stopped)
  }

  ghost predicate OldersGone(l: Life, id: nat) {
    forall o :: 0 < o < id ==> Gone(l, o)
  }

  /** Told once at most, and with every older generation gone. */
  ghost predicate Safe(l: Life) {
    && (forall i :: 0 <= i < |l.resumes| ==>
        0 < l.resumes[i] < l.next && (l.resumes[i] in l.phases ==> l.resumes[i] in l.resumed))
    && (forall i :: 0 <= i < |l.resumes| ==> OldersGone(l, l.resumes[i]))
    && (forall i, j :: 0 <= i < j < |l.resumes| ==> l.resumes[i] != l.resumes[j])
  }

  ghost predicate Numbered(l: Life) {
    && l.next > 0
    && (forall id :: id in l.phases ==> 0 < id < l.next)
    && (forall id :: id in l.workflows ==> id in l.phases)
    && (forall id :: id in l.resumed ==> id in l.resumes)
    && (l.active.Some? ==> 0 < l.active.value < l.next)
  }

  /** Every generation but the newest is on its way out. */
  ghost predicate OneActive(l: Life) {
    && l.active == (if l.next == 1 then None else Some(l.next - 1))
    && forall id :: id in l.phases && l.phases[id] == Active ==> l.active == Some(id)
  }

  /** Nothing that has gone comes back. */
  ghost predicate Later(l: Life, t: Life) {
    && l.resumes == t.resumes && l.next <= t.next
    && (forall id :: id in l.resumed && id in t.phases ==> id in t.resumed)
    && (forall id :: 0 < id < l.next && id in t.phases ==>
        id in l.phases && (l.phases[id] == Stopped ==> t.phases[id] == Stopped))
  }

  lemma LaterSafe(l: Life, t: Life)
    requires Safe(l) && Later(l, t)
    ensures Safe(t)
  {
    forall i | 0 <= i < |t.resumes| ensures OldersGone(t, t.resumes[i]) {
      assert OldersGone(l, l.resumes[i]);
      forall o | 0 < o < t.resumes[i] ensures Gone(t, o) {
        assert Gone(l, o);
      }
    }
  }

  lemma ResumeKeeps(l: Life, id: nat)
    requires Numbered(l) && Safe(l) && 0 < id < l.next && OldersGone(l, id)
    ensures Numbered(Resume(l, id)) && Safe(Resume(l, id))
  {
    var t := l.(resumed := l.resumed + {id});
    LaterSafe(l, t);
    if id in l.workflows && id !in l.resumed {
      assert Resume(l, id) == t.(resumes := l.resumes + [id]);
      forall i | 0 <= i < |l.resumes| + 1 ensures OldersGone(Resume(l, id), (l.resumes + [id])[i]) {
        if i < |l.resumes| {
          assert OldersGone(t, t.resumes[i]);
        }
        forall o | 0 < o < (l.resumes + [id])[i] ensures Gone(Resume(l, id), o) {
          assert Gone(l, o);
        }
      }
    }
  }

  lemma FinishKeeps(l: Life, id: nat)
    requires Numbered(l) && Safe(l)
    ensures Numbered(Finish(l, id)) && Safe(Finish(l, id)) && Finish(l, id).next == l.next
    ensures Finish(l, id).active == l.active
    ensures Finish(l, id).phases == Stop(l, id).phases
  {
    var s := Stop(l, id);
    LaterSafe(l, s);
    if s.active.Some? && s.active.value in s.phases && OlderStopped(s, s.active.value) {
      forall o | 0 < o < s.active.value ensures Gone(s, o) {
      }
      ResumeKeeps(s, s.active.value);
    }
  }

  lemma AddedKeeps(l: Life, workflows: bool)
    requires Numbered(l) && Safe(l)
    ensures Numbered(Added(l, workflows)) && Safe(Added(l, workflows))
  {
    LaterSafe(l, Added(l, workflows));
  }

  /** What retiring may change: nothing but the active generation's phase, and that it is not active any more. */
  ghost predicate Retired(l: Life, t: Life) {
    t.next == l.next && t.phases.Keys == l.phases.Keys && t.active == l.active
    && forall id :: id in t.phases && t.phases[id] == Active ==> l.phases[id] == Active && l.active != Some(id)
  }

  lemma DrainKeeps(l: Life, id: nat)
    requires Numbered(l) && Safe(l)
    ensures Numbered(Drain(l, id)) && Safe(Drain(l, id))
  {
    LaterSafe(l, Drain(l, id));
  }

  lemma WindowsKeep(l: Life, windows: set<nat>)
    requires Numbered(l) && Safe(l)
    ensures Numbered(l.(windows := windows)) && Safe(l.(windows := windows))
  {
    LaterSafe(l, l.(windows := windows));
  }

  lemma RetireKeeps(l: Life, idle: bool)
    requires Numbered(l) && Safe(l)
    ensures Numbered(Retire(l, idle)) && Safe(Retire(l, idle))
    ensures Retired(l, Retire(l, idle))
  {
    if l.active.Some? {
      var drained := Drain(l, l.active.value);
      DrainKeeps(l, l.active.value);
      WindowsKeep(drained, l.windows + {l.active.value});
      FinishKeeps(drained, l.active.value);
    }
  }

  lemma GraceKeeps(l: Life, id: nat)
    requires Numbered(l) && Safe(l) && OneActive(l)
    ensures Numbered(GraceEnd(l, id)) && Safe(GraceEnd(l, id)) && OneActive(GraceEnd(l, id))
  {
    WindowsKeep(l, l.windows - {id});
    FinishKeeps(l.(windows := l.windows - {id}), id);
  }

  lemma StopKeeps(l: Life, id: nat)
    requires Numbered(l) && Safe(l) && OneActive(l)
    ensures Numbered(Stop(l, id)) && Safe(Stop(l, id)) && OneActive(Stop(l, id))
  {
    LaterSafe(l, Stop(l, id));
  }

  lemma ForgetKeeps(l: Life, id: nat)
    requires Numbered(l) && Safe(l) && OneActive(l)
    ensures Numbered(Forget(l, id)) && Safe(Forget(l, id)) && OneActive(Forget(l, id))
  {
    LaterSafe(l, Forget(l, id));
  }

  lemma ActivateKeeps(l: Life, id: nat)
    requires Numbered(l) && Safe(l) && 0 < id < l.next && (l.active.None? ==> OldersGone(l, id))
    ensures var t := Activate(l, id);
            Numbered(t) && Safe(t) && t.next == l.next && t.phases == l.phases && t.active == Some(id)
  {
    var t := l.(active := Some(id));
    LaterSafe(l, t);
    if l.active.None? {
      assert OldersGone(t, id) by {
        forall o | 0 < o < id ensures Gone(t, o) {
          assert Gone(l, o);
        }
      }
      ResumeKeeps(t, id);
    }
  }

  lemma ReloadKeeps(l: Life, workflows: bool, idle: bool)
    requires Numbered(l) && Safe(l) && OneActive(l)
    ensures var t := Reload(l, workflows, idle); Numbered(t) && Safe(t) && OneActive(t)
  {
    AddedKeeps(l, workflows);
    RetireKeeps(Added(l, workflows), idle);
    ActivateKeeps(Retire(Added(l, workflows), idle), l.next);
  }

  lemma StepKeeps(l: Life, e: Event)
    requires Numbered(l) && Safe(l) && OneActive(l) && Enabled(l, e)
    ensures Numbered(Step(l, e)) && Safe(Step(l, e)) && OneActive(Step(l, e))
  {
    match e
    case Reloads(workflows, idle) => ReloadKeeps(l, workflows, idle);
    case GraceEnds(id) => GraceKeeps(l, id);
    case ForceDrain(id) => DrainKeeps(l, id);
    case ForceStop(id) => StopKeeps(l, id);
    case Forgets(id) => ForgetKeeps(l, id);
  }

  lemma {:induction false} RunKeeps(events: seq<Event>)
    requires Run(events).Some?
    ensures var l := Run(events).value; Numbered(l) && Safe(l) && OneActive(l)
  {
    if events != [] {
      RunKeeps(events[..|events| - 1]);
      StepKeeps(Run(events[..|events| - 1]).value, events[|events| - 1]);
    }
  }

  /** Workflow-resume safety, in every reachable state: no generation is told twice, and of those told at most one has
      not stopped. */
  lemma ResumeSafety(events: seq<Event>, i: nat, j: nat)
    requires Run(events).Some?
    requires var l := Run(events).value; i < |l.resumes| && j < |l.resumes|
    ensures var l := Run(events).value;
            (l.resumes[i] == l.resumes[j] ==> i == j) && (Gone(l, l.resumes[i]) || Gone(l, l.resumes[j]) || i == j)
  {
    RunKeeps(events);
    var l := Run(events).value;
    assert OldersGone(l, l.resumes[i]) && OldersGone(l, l.resumes[j]);
    if l.resumes[i] < l.resumes[j] {
      assert Gone(l, l.resumes[i]);
    } else if l.resumes[j] < l.resumes[i] {
      assert Gone(l, l.resumes[j]);
    }
  }

  lemma AtMostOneMore(l: Life, e: Event)
    requires Enabled(l, e)
    ensures l.resumes <= Step(l, e).resumes && |Step(l, e).resumes| <= |l.resumes| + 1
  {
  }

  /** At the moment a generation is told to resume, every older one has stopped. */
  lemma OldersGoneAtResume(events: seq<Event>, e: Event)
    requires Run(events + [e]).Some?
    requires Run(events).Some? && |Run(events + [e]).value.resumes| > |Run(events).value.resumes|
    ensures var before, after := Run(events).value, Run(events + [e]).value;
            |after.resumes| == |before.resumes| + 1 && before.resumes <= after.resumes
            && forall id :: 0 < id < after.resumes[|before.resumes|] ==> Gone(after, id)
  {
    assert (events + [e])[..|events + [e]| - 1] == events;
    RunKeeps(events + [e]);
    var before, after := Run(events).value, Run(events + [e]).value;
    AtMostOneMore(before, e);
    assert OldersGone(after, after.resumes[|before.resumes|]);
  }

  /** What has gone stays so, nothing is listed again, and nothing becomes active again. */
  ghost predicate Onward(l: Life, t: Life, id: nat) {
    && (id in t.phases ==> id in l.phases && (l.phases[id] == Stopped ==> t.phases[id] == Stopped))
    && (id in t.phases && t.phases[id] == Active ==> l.phases[id] == Active)
  }

  lemma ReloadOnward(l: Life, workflows: bool, idle: bool, id: nat)
    requires Numbered(l) && 0 < id < l.next
    ensures Onward(l, Reload(l, workflows, idle), id) && Reload(l, workflows, idle).next == l.next + 1
  {
    var t := Added(l, workflows);
    assert Onward(l, t, id);
    assert Onward(t, Retire(t, idle), id);
  }

  lemma StepOnward(l: Life, e: Event, id: nat)
    requires Numbered(l) && 0 < id < l.next && Enabled(l, e)
    ensures Onward(l, Step(l, e), id) && Step(l, e).next >= l.next
  {
    if e.Reloads? {
      ReloadOnward(l, e.workflows, e.idle, id);
    }
  }

  /** A generation only ever goes from active to draining to stopped to forgotten. */
  lemma OneWay(events: seq<Event>, e: Event, id: nat)
    requires Run(events + [e]).Some? && Run(events).Some? && 0 < id < Run(events).value.next
    ensures var before, after := Run(events).value, Run(events + [e]).value;
            && (Gone(before, id) ==> Gone(after, id))
            && (id in after.phases ==> id in before.phases)
            && (id in after.phases && after.phases[id] == Active ==> before.phases[id] == Active)
  {
    assert (events + [e])[..|events + [e]| - 1] == events;
    RunKeeps(events);
    StepOnward(Run(events).value, e, id);
  }

  // ---- What each event does ----

  /** One more generation is told, or none; it is remembered as told. */
  ghost predicate Tells(l: Life, t: Life, id: nat, told: bool) {
    && t.resumes == (if told then l.resumes + [id] else l.resumes)
    && t.resumed == (if told then l.resumed + {id} else l.resumed)
  }

  /** It has workflows it has not been told to resume. */
  predicate Due(l: Life, id: nat) {
    id in l.workflows && id !in l.resumed
  }

  ghost predicate StoppedBefore(phases: map<nat, Phase>, id: nat) {
    forall o :: o in phases && o < id ==> phases[o] == Stopped
  }

  lemma StoppedAlike(p: map<nat, Phase>, q: map<nat, Phase>, id: nat)
    requires forall o :: o < id ==> (o in p <==> o in q) && (o in p ==> p[o] == q[o])
    ensures StoppedBefore(p, id) <==> StoppedBefore(q, id)
  {
    if StoppedBefore(q, id) {
      forall o | o in p && o < id ensures p[o] == Stopped {
        assert o in q;
      }
    }
  }

  /** A reload lists the new generation as the active one. The old one, if it is listed and active, goes on draining in
      a grace window of its own while it is busy, and is told of nothing; when it is idle it stops, and is told if all
      older ones have stopped. The new one is told only if it is the first. */
  ghost predicate Reloaded(l: Life, t: Life, workflows: bool, idle: bool) {
    && t.next == l.next + 1 && t.active == Some(l.next)
    && t.workflows == (if workflows then l.workflows + {l.next} else l.workflows)
    && if l.active.Some? && l.active.value in l.phases && l.phases[l.active.value] == Active then
      var g := l.active.value;
      if idle then
        && t.phases == l.phases[g := Stopped][l.next := Active] && t.windows == l.windows
        && Tells(l, t, g, Due(l, g) && StoppedBefore(l.phases, g))
      else
        && t.phases == l.phases[g := Draining][l.next := Active] && t.windows == l.windows + {g}
        && Tells(l, t, g, false)
    else
      && t.phases == l.phases[l.next := Active] && t.windows == l.windows
      && Tells(l, t, l.next, l.active.None? && workflows && l.next !in l.resumed)
  }

  /** The end of a grace window stops its generation, and the active one is told if all older ones have stopped now. */
  ghost predicate WindowEnded(l: Life, t: Life, id: nat) {
    && t.next == l.next && t.active == l.active && t.workflows == l.workflows
    && t.windows == l.windows - {id}
    && t.phases == (if id in l.phases then l.phases[id := Stopped] else l.phases)
    && match l.active
       case None => Tells(l, t, id, false)
       case Some(a) => Tells(l, t, a, a in l.phases && Due(l, a) && StoppedBefore(t.phases, a))
  }

  ghost predicate Does(l: Life, e: Event, t: Life) {
    match e
    case Reloads(workflows, idle) => Reloaded(l, t, workflows, idle)
    case GraceEnds(id) => WindowEnded(l, t, id)
    case ForceDrain(id) =>
      t == l.(phases := if id in l.phases && l.phases[id] == Active then l.phases[id := Draining] else l.phases)
    case ForceStop(id) => t == l.(phases := if id in l.phases then l.phases[id := Stopped] else l.phases)
    case Forgets(id) =>
      t == l.(phases := l.phases - {id}, workflows := l.workflows - {id}, resumed := l.resumed - {id})
  }

  /** Every id in use is below the next. */
  ghost predicate Counted(l: Life) {
    && (forall id :: id in l.phases ==> id < l.next)
    && (forall id :: id in l.workflows ==> id in l.phases)
    && (l.active.Some? ==> l.active.value < l.next)
  }

  lemma ReloadDoes(l: Life, workflows: bool, idle: bool)
    requires Counted(l)
    ensures Reloaded(l, Reload(l, workflows, idle), workflows, idle)
  {
    if l.active.Some? && l.active.value in l.phases && l.phases[l.active.value] == Active {
      var g := l.active.value;
      var busy := l.phases[g := Draining][l.next := Active];
      var added := Added(l, workflows);
      assert Drain(added, g).phases == busy;
      assert busy[g := Stopped] == l.phases[g := Stopped][l.next := Active];
      StoppedAlike(l.phases, busy[g := Stopped], g);
      assert OlderStopped(Stop(Drain(added, g), g), g) <==> StoppedBefore(busy[g := Stopped], g);
      assert Due(added, g) == Due(l, g);
    }
  }

  lemma GraceEndDoes(l: Life, id: nat)
    ensures WindowEnded(l, GraceEnd(l, id), id)
  {
    if l.active.Some? {
      var a, s := l.active.value, Stop(l, id);
      assert OlderStopped(s, a) <==> StoppedBefore(s.phases, a);
    }
  }

  /** Every event does what it says, whatever the state it comes to. */
  lemma StepDoes(l: Life, e: Event)
    requires Enabled(l, e) && Counted(l)
    ensures Does(l, e, Step(l, e))
  {
    match e
    case Reloads(workflows, idle) => ReloadDoes(l, workflows, idle);
    case GraceEnds(id) => GraceEndDoes(l, id);
    case _ =>
  }

  /** In every reachable life: a busy active generation goes on draining in a window of its own and nobody is told; an
      idle one has stopped, and its window is not opened. */
  lemma ReloadRetires(events: seq<Event>, workflows: bool, idle: bool, g: nat)
    requires Run(events).Some?
    requires var l := Run(events).value; l.active == Some(g) && g in l.phases && l.phases[g] == Active
    ensures Run(events + [Reloads(workflows, idle)]).Some?
    ensures var l, t := Run(events).value, Run(events + [Reloads(workflows, idle)]).value;
            if idle then t.phases == l.phases[g := Stopped][l.next := Active] && t.windows == l.windows
            else t.phases == l.phases[g := Draining][l.next := Active] && t.windows == l.windows + {g}
                 && t.resumes == l.resumes
  {
    RunKeeps(events);
    RunPush(events, Reloads(workflows, idle));
    ReloadDoes(Run(events).value, workflows, idle);
  }

  /** While a generation is listed, what is remembered is who has been told. */
  lemma RememberedWhileListed(events: seq<Event>, id: nat)
    requires Run(events).Some? && id in Run(events).value.phases
    ensures id in Run(events).value.resumed <==> id in Run(events).value.resumes
  {
    RunKeeps(events);
  }

  // ---- Who is never told ----

  /** A reload tells the generation it makes exactly when that is the first one. */
  lemma NewestToldWhen(events: seq<Event>, workflows: bool, idle: bool)
    requires Run(events).Some?
    ensures var before := Run(events).value;
            before.next in Reload(before, workflows, idle).resumes <==> workflows && before.active.None?
  {
    RunKeeps(events);
    var before := Run(events).value;
    var retired := Retire(Added(before, workflows), idle);
    RetiredIds(before, workflows, idle);
    assert before.active.Some? ==> Activate(retired, before.next).resumes == retired.resumes;
  }

  lemma RetiredIds(l: Life, workflows: bool, idle: bool)
    requires Numbered(l) && Safe(l)
    ensures var t := Retire(Added(l, workflows), idle);
            && l.next !in t.resumes && t.active == l.active && (l.active.None? ==> t == Added(l, workflows))
            && (l.next in t.workflows <==> workflows) && l.next !in t.resumed
  {
  }

  /** When the old generation is idle at a reload, what is told, if anything, is the old one, which has just stopped. */
  lemma IdleReloadResumesTheOld(events: seq<Event>, workflows: bool)
    requires Run(events).Some? && Run(events).value.active.Some?
    ensures var before := Run(events).value;
            var after := Reload(before, workflows, true);
            after.resumes != before.resumes ==>
              after.resumes == before.resumes + [before.active.value] && Gone(after, before.active.value)
  {
    RunKeeps(events);
  }

  lemma RunPush(events: seq<Event>, e: Event)
    requires Run(events).Some?
    ensures Run(events + [e]) == if Enabled(Run(events).value, e) then Some(Step(Run(events).value, e)) else None
  {
    assert (events + [e])[..|events + [e]| - 1] == events;
  }

  lemma {:induction false} RunPrefix(events: seq<Event>, more: seq<Event>)
    requires Run(events + more).Some?
    ensures Run(events).Some?
  {
    if more == [] {
      assert events + more == events;
    } else {
      assert (events + more)[..|events + more| - 1] == events + more[..|more| - 1];
      RunPrefix(events, more[..|more| - 1]);
    }
  }

  lemma ToldByStep(l: Life, e: Event, g: nat)
    requires Enabled(l, e) && Numbered(l) && g !in l.resumes && g in Step(l, e).resumes
    ensures g == l.next || l.active == Some(g)
    ensures l.active == Some(g) ==> e.GraceEnds? || (e.Reloads? && Gone(Step(l, e), g))
  {
  }

  /** Replaced, or still to be replaced with no grace window open. */
  ghost predicate ToldLateIfEver(l: Life, g: nat) {
    && 0 < g < l.next && (g in l.resumes ==> Gone(l, g))
    && (l.active == Some(g) ==> g !in l.resumes && l.windows == {})
  }

  lemma ToldLateKeeps(l: Life, e: Event, g: nat)
    requires Numbered(l) && Safe(l) && OneActive(l) && Enabled(l, e) && ToldLateIfEver(l, g)
    ensures ToldLateIfEver(Step(l, e), g)
  {
    StepOnward(l, e, g);
    if g in l.resumes {
      assert Gone(l, g) && Gone(Step(l, e), g);
    } else if g in Step(l, e).resumes {
      ToldByStep(l, e, g);
    }
    if !e.Reloads? && l.active == Some(g) {
      assert Step(l, e).active == l.active && Step(l, e).windows <= l.windows;
    }
  }

  /** A generation that is active, untold, with no grace window open, is not told in any continuation of the run before
      it has itself stopped. */
  lemma {:induction false} ToldLateOrNever(events: seq<Event>, more: seq<Event>, g: nat)
    requires Run(events + more).Some?
    requires Run(events).Some? ==>
               var l := Run(events).value; l.active == Some(g) && l.windows == {} && g !in l.resumes
    ensures g in Run(events + more).value.resumes ==> Gone(Run(events + more).value, g)
    ensures ToldLateIfEver(Run(events + more).value, g)
  {
    RunPrefix(events, more);
    if more == [] {
      assert events + more == events;
      RunKeeps(events);
    } else {
      var front := more[..|more| - 1];
      assert (events + more)[..|events + more| - 1] == events + front;
      ToldLateOrNever(events, front, g);
      RunKeeps(events + front);
      ToldLateKeeps(Run(events + front).value, more[|more| - 1], g);
    }
  }

  /** No event of `more` is a reload. */
  predicate NoReload(more: seq<Event>) {
    forall e :: e in more ==> !e.Reloads?
  }

  lemma {:induction false} UntoldWithoutWindow(events: seq<Event>, more: seq<Event>)
    requires Run(events + more).Some? && NoReload(more)
    requires Run(events).Some? && Run(events).value.windows == {}
    ensures var l, t := Run(events).value, Run(events + more).value;
            t.resumes == l.resumes && t.windows == {} && t.active == l.active
  {
    if more == [] {
      assert events + more == events;
    } else {
      var front := more[..|more| - 1];
      assert (events + more)[..|events + more| - 1] == events + front;
      UntoldWithoutWindow(events, front);
      assert more[|more| - 1] in more;
    }
  }

  /** Nothing differs but that generations below `k` have stopped. */
  ghost predicate StoppedBelow(l: Life, t: Life, k: nat) {
    t == l.(phases := t.phases) && t.phases.Keys == l.phases.Keys
    && forall id :: id in t.phases && id < k ==> t.phases[id] == Stopped
  }

  lemma StopOneMore(l: Life, t: Life, k: nat)
    requires k > 0 && StoppedBelow(l, t, k - 1)
    ensures StoppedBelow(l, Stop(t, k - 1), k)
  {
  }

  lemma StopNext(events: seq<Event>, before: seq<Event>, s: Life, k: nat)
    requires k > 0 && Run(events + before) == Some(s)
    ensures Run(events + (before + [ForceStop(k - 1)])) == Some(Stop(s, k - 1))
  {
    assert events + (before + [ForceStop(k - 1)]) == (events + before) + [ForceStop(k - 1)];
    RunPush(events + before, ForceStop(k - 1));
  }

  lemma {:induction false} StopThrough(events: seq<Event>, l: Life, k: nat) returns (more: seq<Event>, t: Life)
    requires Run(events) == Some(l)
    ensures NoReload(more) && Run(events + more) == Some(t) && StoppedBelow(l, t, k)
  {
    if k == 0 {
      more, t := [], l;
      assert events + more == events;
    } else {
      var before, s := StopThrough(events, l, k - 1);
      more, t := before + [ForceStop(k - 1)], Stop(s, k - 1);
      StopNext(events, before, s, k);
      StopOneMore(l, s, k);
    }
  }

  lemma LastWindowTells(l: Life, t: Life, id: nat, g: nat)
    requires StoppedBelow(l, t, g) && id in l.windows && l.active == Some(g)
    requires g in l.phases && g in l.workflows && g !in l.resumed
    ensures Enabled(t, GraceEnds(id)) && g in Step(t, GraceEnds(id)).resumes
  {
    assert OlderStopped(Stop(t.(windows := t.windows - {id}), id), g);
  }

  lemma SomeRunTells(events: seq<Event>, g: nat) returns (more: seq<Event>)
    requires Run(events).Some? && Run(events).value.active == Some(g)
    requires var l := Run(events).value; g in l.phases && g in l.workflows && g !in l.resumed && l.windows != {}
    ensures NoReload(more) && Run(events + more).Some? && g in Run(events + more).value.resumes
  {
    var l := Run(events).value;
    var id :| id in l.windows;
    var stops, t := StopThrough(events, l, g);
    more := stops + [GraceEnds(id)];
    assert events + more == (events + stops) + [GraceEnds(id)];
    LastWindowTells(l, t, id, g);
    RunPush(events + stops, GraceEnds(id));
  }

  /** The active generation, not told so far, can still be told before another reload exactly when it is listed, has
      workflows, and some grace window is open. */
  lemma ToldBeforeReloadWhen(events: seq<Event>, g: nat)
    requires Run(events).Some? && Run(events).value.active == Some(g) && g !in Run(events).value.resumes
    ensures var l := Run(events).value;
            (exists more :: NoReload(more) && Run(events + more).Some? && g in Run(events + more).value.resumes)
            <==> g in l.phases && g in l.workflows && l.windows != {}
  {
    var l := Run(events).value;
    RunKeeps(events);
    if g in l.phases && g in l.workflows && l.windows != {} {
      var more := SomeRunTells(events, g);
    }
    forall more | NoReload(more) && Run(events + more).Some? && g in Run(events + more).value.resumes
      ensures g in l.phases && g in l.workflows && l.windows != {}
    {
      if l.windows == {} {
        UntoldWithoutWindow(events, more);
      } else if !(g in l.phases && g in l.workflows) {
        UntoldStays(events, more, g);
      }
    }
  }

  lemma {:induction false} UntoldStays(events: seq<Event>, more: seq<Event>, g: nat)
    requires Run(events).Some? && Run(events + more).Some? && NoReload(more) && Run(events).value.active == Some(g)
    requires g !in Run(events).value.resumes
    requires g !in Run(events).value.phases || g !in Run(events).value.workflows
    ensures var t := Run(events + more).value;
            t.active == Some(g) && g !in t.resumes && (g !in t.phases || g !in t.workflows)
  {
    if more == [] {
      assert events + more == events;
    } else {
      var front := more[..|more| - 1];
      assert (events + more)[..|events + more| - 1] == events + front;
      UntoldStays(events, front, g);
      assert more[|more| - 1] in more;
    }
  }

  lemma ThreeLoads()
    ensures var r := Reloads(true, true);
            var one := Life(map[1 := Active], {1}, 2, Some(1), {}, {1}, [1]);
            var two := Life(map[1 := Stopped, 2 := Active], {1, 2}, 3, Some(2), {}, {1}, [1]);
            Step(START, r) == one && Step(one, r) == two
            && Step(two, r).resumes == [1, 2] && Step(two, r).active == Some(3) && Step(two, r).windows == {}
  {
  }

  /** And that does happen: three loads, each finding its predecessor idle. The second generation is told once it has
      stopped; the third is not told, whatever follows, before it has stopped. */
  lemma IdleReloadWitness(more: seq<Event>)
    ensures var r := Reloads(true, true);
            && Run([r, r, r]).Some? && Run([r, r, r]).value.resumes == [1, 2] && Run([r, r, r]).value.active == Some(3)
            && (Run([r, r, r] + more).Some? && 3 in Run([r, r, r] + more).value.resumes ==>
                  Gone(Run([r, r, r] + more).value, 3))
  {
    var r := Reloads(true, true);
    assert [] + [r] == [r] && [r] + [r] == [r, r] && [r, r] + [r] == [r, r, r];
    RunPush([], r);
    RunPush([r], r);
    RunPush([r, r], r);
    ThreeLoads();
    if Run([r, r, r] + more).Some? {
      ToldLateOrNever([r, r, r], more, 3);
    }
  }
}

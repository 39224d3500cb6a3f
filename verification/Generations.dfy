/** Generations of a worker and their manager: what the objects do on reload, drain and stop, tied to the life of the
    generations and to the alarms of the namespaces they share. */
module Generations {
  import opened Basics
  import Alarms
  import Lifecycle
  import opened Namespace

  type Phase = Lifecycle.Phase

  datatype Binding = Binding(className: string, namespace: DurableObjectNamespace)

  /** What the namespaces of a manager stand on: the alarm table of each class, and the clock. */
  datatype Ground = Ground(tables: map<string, AlarmTable>, clock: Clock)

  /** A namespace made for class `c`, on the alarm table of that class. */
  ghost predicate Made(ground: Ground, c: string, n: DurableObjectNamespace) {
    n.className == c && c in ground.tables && n.table == ground.tables[c] && n.clock == ground.clock
  }

  /** Old tables are kept, and new ones have no row. */
  ghost predicate FreshTables(before: map<string, AlarmTable>, after: map<string, AlarmTable>)
    reads after.Values`rows
  {
    && (forall c :: c in before ==> c in after && after[c] == before[c])
    && forall c :: c in after && c !in before ==> after[c].rows == map[]
  }

  /** The rows of one class are none of another's. */
  ghost predicate Apart(tables: map<string, AlarmTable>) {
    forall c, d :: c in tables && d in tables && c != d ==> tables[c] != tables[d]
  }

  /** Every binding is to a namespace of its class: the shared one where there is one, else one not yet installed. */
  ghost predicate Bound(
    spaces: set<DurableObjectNamespace>, ground: Ground, shared: map<string, DurableObjectNamespace>,
    registry: seq<Binding>)
  {
    forall b :: b in registry ==>
      && Made(ground, b.className, b.namespace)
      && if b.className in shared then b.namespace == shared[b.className] else b.namespace !in spaces
  }

  /** Two bindings have one namespace exactly when they name one class that is shared already. */
  ghost predicate SharedOnly(shared: map<string, DurableObjectNamespace>, registry: seq<Binding>) {
    forall i, j :: 0 <= i < j < |registry| ==>
      (registry[i].namespace == registry[j].namespace <==>
       registry[i].className == registry[j].className && registry[i].className in shared)
  }

  lemma BindOne(
    spaces: set<DurableObjectNamespace>, before: Ground, ground: Ground,
    shared: map<string, DurableObjectNamespace>, registry: seq<Binding>, b: Binding)
    requires Bound(spaces, before, shared, registry) && SharedOnly(shared, registry)
    requires before.clock == ground.clock
    requires forall c :: c in before.tables ==> c in ground.tables && ground.tables[c] == before.tables[c]
    requires Made(ground, b.className, b.namespace)
    requires if b.className in shared then b.namespace == shared[b.className]
             else b.namespace !in spaces && forall o :: o in registry ==> o.namespace != b.namespace
    ensures Bound(spaces, ground, shared, registry + [b]) && SharedOnly(shared, registry + [b])
  {
    forall i | 0 <= i < |registry|
      ensures registry[i].namespace == b.namespace <==> registry[i].className == b.className && b.className in shared
    {
      assert registry[i] in registry;
    }
  }

  /** The generations listed have these phases, and these have workflows. */
  ghost predicate Listing(generations: map<nat, Generation>, phases: map<nat, Phase>, working: set<nat>, next: nat) {
    next > 0 && phases.Keys == generations.Keys && working <= generations.Keys &&
    forall id :: id in generations ==>
      0 < id < next && generations[id].id == id && (generations[id].workflows <==> id in working)
  }

  ghost predicate Connected(
    spaces: set<DurableObjectNamespace>, ground: Ground, shared: map<string, DurableObjectNamespace>,
    generations: map<nat, Generation>)
  {
    && Apart(ground.tables)
    && (forall c :: c in shared ==> shared[c] in spaces && Made(ground, c, shared[c]))
    && (forall id :: id in generations ==> generations[id].Spaces() <= spaces)
  }

  lemma ListingWithout(generations: map<nat, Generation>, phases: map<nat, Phase>, working: set<nat>, next: nat,
                       id: nat)
    requires Listing(generations, phases, working, next)
    ensures Listing(generations - {id}, phases - {id}, working - {id}, next)
  {
  }

  lemma ListingWith(generations: map<nat, Generation>, phases: map<nat, Phase>, working: set<nat>, next: nat,
                    gen: Generation, phase: Phase)
    requires Listing(generations, phases, working, next) && gen.id == next
    ensures Listing(generations[next := gen], phases[next := phase],
                    if gen.workflows then working + {next} else working, next + 1)
  {
  }

  class Generation {
    const id: nat
    const registry: seq<Binding>
    /** Whether the configuration declares any workflow. */
    const workflows: bool
    var phase: Phase
    var cron: bool

    constructor (id: nat, registry: seq<Binding>, workflows: bool, cron: bool)
      ensures this.id == id && this.registry == registry && this.workflows == workflows
      ensures this.cron == cron && phase == Lifecycle.Active
    {
      this.id, this.registry, this.workflows, this.cron, phase := id, registry, workflows, cron, Lifecycle.Active;
    }

    function Spaces(): set<DurableObjectNamespace> {
      Namespaces(registry)
    }

    /** Stops cron and alarms, leaving the namespaces in `shared` alone. */
    method Drain(shared: set<DurableObjectNamespace>)
      modifies this`phase, this`cron
      modifies (Spaces() - shared)`alarmTimers, (Spaces() - shared)`live, (Spaces() - shared)`attached
      ensures old(phase) == Lifecycle.Stopped ==> phase == Lifecycle.Stopped && cron == old(cron)
      ensures old(phase) != Lifecycle.Stopped ==> phase == Lifecycle.Draining && !cron
      ensures old(phase) == Lifecycle.Stopped ==> forall n :: n in Spaces() ==> n.State() == old(n.State())
      ensures old(phase) != Lifecycle.Stopped ==> forall n :: n in Spaces() - shared ==> n.alarmTimers == map[]
    {
      if phase == Lifecycle.Stopped {
        return;
      }
      phase, cron := Lifecycle.Draining, false;
      for i := 0 to |registry|
        invariant phase == Lifecycle.Draining && !cron
        invariant forall j :: 0 <= j < i && registry[j].namespace !in shared ==>
                  registry[j].namespace.alarmTimers == map[]
      {
        var namespace := registry[i].namespace;
        if namespace !in shared {
          namespace.ClearAlarmTimers();
        }
      }
    }

    method Stop(shared: set<DurableObjectNamespace>)
      modifies this`phase, this`cron
      modifies (Spaces() - shared)`alarmTimers, (Spaces() - shared)`live, (Spaces() - shared)`attached
      ensures phase == Lifecycle.Stopped && (old(phase) != Lifecycle.Stopped ==> !cron)
      ensures old(phase) == Lifecycle.Stopped ==>
                cron == old(cron) && forall n :: n in Spaces() ==> n.State() == old(n.State())
      ensures old(phase) != Lifecycle.Stopped ==> forall n :: n in Spaces() - shared ==> n.alarmTimers == map[]
    {
      if phase == Lifecycle.Stopped {
        return;
      }
      Drain(shared);
      phase := Lifecycle.Stopped;
      for i := 0 to |registry|
        invariant phase == Lifecycle.Stopped && !cron
        invariant forall j :: 0 <= j < |registry| && registry[j].namespace !in shared ==>
                    registry[j].namespace.alarmTimers == map[]
      {
        var namespace := registry[i].namespace;
        if namespace !in shared {
          namespace.ClearAlarmTimers();
        }
      }
    }
  }

  lemma ValuesWith(generations: map<nat, Generation>, id: nat, gen: Generation)
    ensures generations[id := gen].Values <= generations.Values + {gen}
  {
  }

  lemma ConnectedWithout(
    spaces: set<DurableObjectNamespace>, ground: Ground, shared: map<string, DurableObjectNamespace>,
    generations: map<nat, Generation>, id: nat)
    requires Connected(spaces, ground, shared, generations)
    ensures Connected(spaces, ground, shared, generations - {id})
  {
  }

  lemma ConnectedWith(
    spaces: set<DurableObjectNamespace>, ground: Ground, shared: map<string, DurableObjectNamespace>,
    generations: map<nat, Generation>, id: nat, gen: Generation)
    requires Connected(spaces, ground, shared, generations) && gen.Spaces() <= spaces
    ensures Connected(spaces, ground, shared, generations[id := gen])
  {
  }

  /** What can happen to a manager: time, an alarm of a class, a move of a generation, and the stages of a reload. */
  datatype Happening =
    | Ticks(to: int)
    | Rings(className: string, alarm: Alarms.Event)
    | Moves(move: Lifecycle.Event)
    | Builds(classes: seq<string>)
    | Loads(workflows: bool, idle: bool)
    | LoadFails

  /** One step of the life of the generations at most. */
  predicate Follows(l: Lifecycle.Life, events: seq<Lifecycle.Event>, t: Lifecycle.Life) {
    if events == [] then t == l
    else |events| == 1 && Lifecycle.Enabled(l, events[0]) && t == Lifecycle.Step(l, events[0])
  }

  lemma RunFollows(events: seq<Lifecycle.Event>, l: Lifecycle.Life, more: seq<Lifecycle.Event>, t: Lifecycle.Life)
    requires Lifecycle.Run(events) == Some(l) && Follows(l, more, t)
    ensures Lifecycle.Run(events + more) == Some(t)
  {
    if more == [] {
      assert events + more == events;
    } else {
      Lifecycle.RunPush(events, more[0]);
      assert more == [more[0]];
    }
  }

  class GenerationManager {
    var generations: map<nat, Generation>
    var nextGenId: nat
    var activeGenId: Option<nat>
    var doNamespaces: map<string, DurableObjectNamespace>
    var resumedGenIds: set<nat>
    /** The generations whose grace window is open: each will be finished once. */
    var finishing: set<nat>
    /** The registry a reload has built while it waits for its worker to load. */
    var building: Option<seq<Binding>>
    /** The database: one alarm table for each class name. */
    var tables: map<string, AlarmTable>
    const cronEnabled: bool
    const clock: Clock
    /** Every generation told to resume, in order, and every namespace installed. */
    ghost var resumes: seq<nat>
    ghost var spaces: set<DurableObjectNamespace>
    /** The phase of every listed generation, and which of them have workflows. */
    ghost var phases: map<nat, Phase>
    ghost var working: set<nat>

    function Base(): Ground
      reads this`tables
    {
      Ground(tables, clock)
    }

    ghost predicate Valid()
      reads this`generations, this`nextGenId, this`spaces, this`tables, this`doNamespaces, this`building
      reads this`phases, this`working, this`activeGenId, generations.Values`phase
    {
      && Listing(generations, phases, working, nextGenId)
      && (activeGenId.Some? ==> activeGenId.value < nextGenId)
      && InPhase()
      && Connected(spaces, Base(), doNamespaces, generations)
      && (building.Some? ==> Bound(spaces, Base(), doNamespaces, building.value))
    }

    lemma ReloadedNext(workflows: bool, idle: bool)
      requires Valid()
      ensures Lifecycle.Reloaded(Life(), Lifecycle.Reload(Life(), workflows, idle), workflows, idle)
    {
      Lifecycle.ReloadDoes(Life(), workflows, idle);
    }

    ghost predicate InPhase()
      reads this`generations, this`phases, generations.Values`phase
    {
      phases.Keys == generations.Keys && forall id :: id in generations ==> generations[id].phase == phases[id]
    }

    /** The life of the generations, as these fields hold it. */
    ghost function Life(): Lifecycle.Life
      reads this`phases, this`working, this`nextGenId, this`activeGenId
      reads this`finishing, this`resumedGenIds, this`resumes
    {
      Lifecycle.Life(phases, working, nextGenId, activeGenId, finishing, resumedGenIds, resumes)
    }

    /** Every shared namespace is attached, and so has a timer for every persisted alarm. */
    ghost predicate AlarmsKept()
      reads this`doNamespaces, Tables(doNamespaces)`rows
      reads Clocks(doNamespaces)`now
      reads doNamespaces.Values`alarmTimers, doNamespaces.Values`live, doNamespaces.Values`next
      reads doNamespaces.Values`wired, doNamespaces.Values`running, doNamespaces.Values`attached
    {
      AllHeld(doNamespaces)
    }

    /** The bindings of the environment being built, and their namespaces. */
    function Pending(): seq<Binding>
      reads this`building
    {
      if building.Some? then building.value else []
    }

    function Built(): set<DurableObjectNamespace>
      reads this`building
    {
      Namespaces(Pending())
    }

    /** The new ones among them have not been touched. */
    ghost predicate Untouched()
      reads this`building, this`doNamespaces, Built()`alarmTimers, Built()`live, Built()`attached
    {
      NewUntouched(doNamespaces, Pending())
    }

    /** Everything a manager may change. */
    ghost function Footprint(): set<object>
      reads this`generations, this`spaces, this`building, this`tables
    {
      {this, clock} + generations.Values + spaces + Built() + tables.Values
    }

    constructor (cronEnabled: bool, clock: Clock)
      ensures Valid() && Life() == Lifecycle.START && AlarmsKept() && Untouched() && building == None
      ensures this.clock == clock && doNamespaces == map[] && tables == map[] && spaces == {}
    {
      generations, nextGenId, activeGenId, doNamespaces, resumedGenIds, finishing := map[], 1, None, map[], {}, {};
      building, tables, this.cronEnabled, this.clock := None, map[], cronEnabled, clock;
      resumes, spaces, phases, working := [], {}, map[], {};
    }

    method ResumeWorkflows(gen: Generation)
      requires Valid() && gen.id in generations && generations[gen.id] == gen
      modifies this`resumedGenIds, this`resumes
      ensures Valid() && Life() == Lifecycle.Resume(old(Life()), gen.id)
    {
      if !gen.workflows || gen.id in resumedGenIds {
        return;
      }
      resumedGenIds, resumes := resumedGenIds + {gen.id}, resumes + [gen.id];
    }

    method StopGeneration(genId: nat)
      requires Valid()
      modifies this`phases, generations.Values`phase, generations.Values`cron
      modifies (spaces - doNamespaces.Values)`alarmTimers, (spaces - doNamespaces.Values)`live
      modifies (spaces - doNamespaces.Values)`attached
      ensures Valid() && Life() == Lifecycle.Stop(old(Life()), genId)
      ensures old(AlarmsKept()) ==> AlarmsKept()
    {
      if genId !in generations || generations[genId].phase == Lifecycle.Stopped {
        return;
      }
      generations[genId].Stop(doNamespaces.Values);
      phases := phases[genId := Lifecycle.Stopped];
      HeldFrame(doNamespaces);
    }

    /** A drained generation stops, and the active one resumes only if every older generation has stopped. */
    method Finish(genId: nat)
      requires Valid()
      modifies this`resumedGenIds, this`resumes, this`phases, generations.Values`phase, generations.Values`cron
      modifies (spaces - doNamespaces.Values)`alarmTimers, (spaces - doNamespaces.Values)`live
      modifies (spaces - doNamespaces.Values)`attached
      ensures Valid() && Life() == Lifecycle.Finish(old(Life()), genId)
      ensures old(AlarmsKept()) ==> AlarmsKept()
    {
      StopGeneration(genId);
      ResumeWhenClear();
    }

    /** Tells the active generation if every older one has stopped. */
    method ResumeWhenClear()
      requires Valid()
      modifies this`resumedGenIds, this`resumes
      ensures Valid() && (old(AlarmsKept()) ==> AlarmsKept())
      ensures var s := old(Life());
              Life() == if s.active.Some? && s.active.value in s.phases && Lifecycle.OlderStopped(s, s.active.value)
                        then Lifecycle.Resume(s, s.active.value) else s
    {
      if activeGenId.Some? && activeGenId.value in generations {
        var clear := OlderStopped(activeGenId.value);
        if clear {
          ResumeWorkflows(generations[activeGenId.value]);
        }
      }
      HeldFrame(doNamespaces);
    }

    /** The end of a grace window. */
    method GraceEnds(genId: nat)
      requires Valid() && genId in finishing
      modifies this`finishing
      modifies this`resumedGenIds, this`resumes, this`phases, generations.Values`phase, generations.Values`cron
      modifies (spaces - doNamespaces.Values)`alarmTimers, (spaces - doNamespaces.Values)`live
      modifies (spaces - doNamespaces.Values)`attached
      ensures Valid() && Life() == Lifecycle.GraceEnd(old(Life()), genId)
      ensures old(AlarmsKept()) ==> AlarmsKept()
    {
      CloseWindow(genId);
      Finish(genId);
    }

    method CloseWindow(genId: nat)
      requires Valid()
      modifies this`finishing
      ensures Valid() && Life() == old(Life()).(windows := old(finishing) - {genId})
      ensures old(AlarmsKept()) ==> AlarmsKept()
    {
      finishing := finishing - {genId};
    }

    method OlderStopped(id: nat) returns (r: bool)
      requires InPhase()
      ensures r == Lifecycle.OlderStopped(Life(), id)
    {
      var left := generations.Keys;
      while left != {}
        invariant left <= generations.Keys
        invariant forall o :: o in generations && o !in left && o < id ==> generations[o].phase == Lifecycle.Stopped
        decreases left
      {
        var o :| o in left;
        if o < id && generations[o].phase != Lifecycle.Stopped {
          assert phases[o] != Lifecycle.Stopped;
          return false;
        }
        left := left - {o};
      }
      r := true;
    }

    method ForceDrain(genId: nat)
      requires Valid()
      modifies this`phases, generations.Values`phase, generations.Values`cron
      modifies (spaces - doNamespaces.Values)`alarmTimers, (spaces - doNamespaces.Values)`live
      modifies (spaces - doNamespaces.Values)`attached
      ensures Valid() && Life() == Lifecycle.Drain(old(Life()), genId)
      ensures old(AlarmsKept()) ==> AlarmsKept()
    {
      if genId in generations {
        generations[genId].Drain(doNamespaces.Values);
        phases := phases[genId := generations[genId].phase];
        HeldFrame(doNamespaces);
      }
    }

    /** A minute after it stopped a generation is forgotten. */
    method Forget(genId: nat)
      requires Valid() && genId in generations
      modifies this`generations, this`resumedGenIds, this`phases, this`working
      ensures Valid() && Life() == Lifecycle.Forget(old(Life()), genId) && generations == old(generations) - {genId}
      ensures old(AlarmsKept()) ==> AlarmsKept()
    {
      Unlist(genId);
      HeldFrame(doNamespaces);
    }

    method Unlist(genId: nat)
      requires Valid() && genId in generations
      modifies this`generations, this`resumedGenIds, this`phases, this`working
      ensures Valid() && Life() == Lifecycle.Forget(old(Life()), genId) && generations == old(generations) - {genId}
    {
      ListingWithout(generations, phases, working, nextGenId, genId);
      ConnectedWithout(spaces, Base(), doNamespaces, generations, genId);
      generations, resumedGenIds := generations - {genId}, resumedGenIds - {genId};
      phases, working := phases - {genId}, working - {genId};
    }

    /** The shared namespace of a class, or a new one over the alarm table of the class. */
    method Bind(c: string) returns (b: Binding)
      requires Valid() && building == None
      modifies this`tables
      ensures Valid() && b.className == c && Made(Base(), c, b.namespace)
      ensures c in doNamespaces ==> b.namespace == doNamespaces[c]
      ensures c !in doNamespaces ==> fresh(b.namespace) && NewUntouched(doNamespaces, [b])
      ensures forall o :: o in old(tables) ==> o in tables && tables[o] == old(tables[o])
      ensures forall o :: o in tables && o !in old(tables) ==> o == c && fresh(tables[o]) && tables[o].rows == map[]
    {
      if c in doNamespaces {
        return Binding(c, doNamespaces[c]);
      }
      if c !in tables {
        var table := new AlarmTable(map[]);
        tables := tables[c := table];
      }
      var n := new DurableObjectNamespace(c, tables[c], clock);
      b := Binding(c, n);
    }

    method BindAll(classes: seq<string>) returns (registry: seq<Binding>)
      requires Valid() && building == None
      modifies this`tables
      ensures Valid() && Bound(spaces, Base(), doNamespaces, registry) && |registry| == |classes|
      ensures forall i :: 0 <= i < |classes| ==> registry[i].className == classes[i]
      ensures SharedOnly(doNamespaces, registry) && NewUntouched(doNamespaces, registry)
      ensures forall b :: b in registry && b.className !in doNamespaces ==> fresh(b.namespace)
      ensures FreshTables(old(tables), tables)
      ensures forall o :: o in tables && o !in old(tables) ==> fresh(tables[o])
    {
      registry := [];
      for i := 0 to |classes|
        invariant Valid() && |registry| == i
        invariant Bound(spaces, Base(), doNamespaces, registry) && SharedOnly(doNamespaces, registry)
        invariant forall j :: 0 <= j < i ==> registry[j].className == classes[j]
        invariant NewUntouched(doNamespaces, registry)
        invariant forall b :: b in registry && b.className !in doNamespaces ==> fresh(b.namespace)
        invariant FreshTables(old(tables), tables)
        invariant forall o :: o in tables && o !in old(tables) ==> fresh(tables[o])
      {
        var b := BindNext(registry, classes[i]);
        registry := registry + [b];
      }
    }

    method BindNext(registry: seq<Binding>, c: string) returns (b: Binding)
      requires Valid() && building == None && Bound(spaces, Base(), doNamespaces, registry)
      requires SharedOnly(doNamespaces, registry) && NewUntouched(doNamespaces, registry)
      modifies this`tables
      ensures Valid() && b.className == c && Bound(spaces, Base(), doNamespaces, registry + [b])
      ensures SharedOnly(doNamespaces, registry + [b]) && NewUntouched(doNamespaces, registry + [b])
      ensures c !in doNamespaces ==> fresh(b.namespace)
      ensures forall o :: o in old(tables) ==> o in tables && tables[o] == old(tables[o])
      ensures forall o :: o in tables && o !in old(tables) ==> fresh(tables[o]) && tables[o].rows == map[]
    {
      ghost var before := Base();
      b := Bind(c);
      BindOne(spaces, before, Base(), doNamespaces, registry, b);
    }

    /** The bindings of the new environment, class by class: shared namespaces are kept, the others made anew. Two
        of them have one namespace exactly when they name one class that is shared already. A class first met here
        gets a table of its own, without a row. */
    method BuildEnv(classes: seq<string>)
      requires Valid() && building == None
      modifies this`building, this`tables
      ensures Valid() && building.Some? && |building.value| == |classes| && Life() == old(Life()) && Untouched()
      ensures forall i :: 0 <= i < |classes| ==> building.value[i].className == classes[i]
      ensures forall b :: b in building.value && b.className !in doNamespaces ==> fresh(b.namespace)
      ensures SharedOnly(doNamespaces, building.value) && FreshTables(old(tables), tables)
      ensures forall o :: o in tables && o !in old(tables) ==> fresh(tables[o])
      ensures old(AlarmsKept()) ==> AlarmsKept()
    {
      var registry := BindAll(classes);
      building := Some(registry);
      HeldFrame(doNamespaces);
    }

    /** A worker that fails to load changes nothing: not a generation, not the active one, not a namespace or timer. */
    method ReadyFails()
      requires Valid() && building.Some?
      modifies this`building
      ensures Valid() && building == None && Life() == old(Life()) && (old(AlarmsKept()) ==> AlarmsKept())
    {
      building := None;
    }

    /** The shared namespaces become those of the registry; whatever else was shared is destroyed. */
    method InstallNamespaces() returns (registry: seq<Binding>)
      requires Valid() && building.Some?
      modifies this`doNamespaces, this`building, this`spaces
      modifies (spaces + Built())`alarmTimers, (spaces + Built())`live, (spaces + Built())`next
      modifies (spaces + Built())`wired, (spaces + Built())`attached
      ensures Valid() && building == None && registry == old(building.value)
      ensures spaces == old(spaces) + Namespaces(registry)
      ensures doNamespaces == Installed(old(doNamespaces), registry) && Life() == old(Life())
      ensures old(AlarmsKept() && Untouched()) ==> AlarmsKept()
      ensures forall c :: c in old(doNamespaces) && !Declares(registry, c) ==> old(doNamespaces)[c].alarmTimers == map[]
      ensures old(AlarmsKept() && Untouched()) ==> HeldUpTo(registry, |registry|)
    {
      registry := building.value;
      InstalledConnected(spaces, Base(), doNamespaces, registry, generations);
      var m := Install(doNamespaces, registry);
      TakeOver(registry, m);
    }

    method TakeOver(registry: seq<Binding>, m: map<string, DurableObjectNamespace>)
      requires Valid() && Connected(spaces + Namespaces(registry), Base(), m, generations)
      modifies this`doNamespaces, this`building, this`spaces
      ensures Valid() && building == None && doNamespaces == m && Life() == old(Life())
      ensures spaces == old(spaces) + Namespaces(registry)
      ensures old(AllHeld(m)) ==> AlarmsKept()
    {
      building, spaces, doNamespaces := None, spaces + Namespaces(registry), m;
    }

    method AddGeneration(registry: seq<Binding>, workflows: bool) returns (gen: Generation)
      requires Valid() && building == None && Namespaces(registry) <= spaces
      modifies this`generations, this`nextGenId, this`phases, this`working
      ensures Valid() && Life() == Lifecycle.Added(old(Life()), workflows) && fresh(gen)
      ensures gen.id == old(nextGenId) && generations == old(generations)[gen.id := gen]
      ensures old(AlarmsKept()) ==> AlarmsKept()
    {
      gen := new Generation(nextGenId, registry, workflows, cronEnabled);
      List(gen);
      HeldFrame(doNamespaces);
    }

    method List(gen: Generation)
      requires Valid() && gen.id == nextGenId && gen.phase == Lifecycle.Active && gen.Spaces() <= spaces
      modifies this`generations, this`nextGenId, this`phases, this`working
      ensures Valid() && Life() == Lifecycle.Added(old(Life()), gen.workflows)
      ensures generations == old(generations)[gen.id := gen]
    {
      var longer := generations[nextGenId := gen];
      ghost var worked := if gen.workflows then working + {nextGenId} else working;
      ListingWith(generations, phases, working, nextGenId, gen, gen.phase);
      ConnectedWith(spaces, Base(), doNamespaces, generations, nextGenId, gen);
      phases, working, generations, nextGenId := phases[nextGenId := gen.phase], worked, longer, nextGenId + 1;
    }

    method OpenWindow(genId: nat)
      requires Valid()
      modifies this`finishing
      ensures Valid() && Life() == old(Life()).(windows := old(finishing) + {genId})
      ensures old(AlarmsKept()) ==> AlarmsKept()
    {
      finishing := finishing + {genId};
    }

    /** The active generation, if still in use, drains; it is finished at once when idle, else when its window ends. */
    method Retire(idle: bool)
      requires Valid()
      modifies this`finishing
      modifies this`resumedGenIds, this`resumes, this`phases, generations.Values`phase, generations.Values`cron
      modifies (spaces - doNamespaces.Values)`alarmTimers, (spaces - doNamespaces.Values)`live
      modifies (spaces - doNamespaces.Values)`attached
      ensures Valid() && Life() == Lifecycle.Retire(old(Life()), idle)
      ensures old(AlarmsKept()) ==> AlarmsKept()
    {
      if activeGenId.None? || activeGenId.value !in generations {
        return;
      }
      if generations[activeGenId.value].phase != Lifecycle.Active {
        return;
      }
      ForceDrain(activeGenId.value);
      if idle {
        Finish(activeGenId.value);
      } else {
        OpenWindow(activeGenId.value);
      }
    }

    /** Resuming at once is for the first load; after a reload it waits for the older generations. */
    method Activate(gen: Generation)
      requires Valid() && gen.id in generations && generations[gen.id] == gen
      modifies this`activeGenId, this`resumedGenIds, this`resumes
      ensures Valid() && Life() == Lifecycle.Activate(old(Life()), gen.id)
      ensures old(AlarmsKept()) ==> AlarmsKept()
    {
      var first := activeGenId.None?;
      activeGenId := Some(gen.id);
      if first {
        ResumeWorkflows(gen);
      }
      HeldFrame(doNamespaces);
    }

    /** The worker has loaded: the new generation takes over. Whatever happened while it loaded, if the shared
        namespaces have their alarms then they have them afterwards. */
    method ReadySucceeds(workflows: bool, idle: bool) returns (gen: Generation)
      requires Valid() && building.Some?
      modifies this`doNamespaces, this`building, this`spaces
      modifies this`generations, this`nextGenId, this`activeGenId, this`finishing, this`resumedGenIds, this`resumes
      modifies this`phases, this`working, generations.Values`phase, generations.Values`cron
      modifies (spaces + Built())`alarmTimers, (spaces + Built())`live, (spaces + Built())`next
      modifies (spaces + Built())`wired, (spaces + Built())`attached
      ensures Valid() && building == None && doNamespaces == Installed(old(doNamespaces), old(building.value))
      ensures Life() == Lifecycle.Reload(old(Life()), workflows, idle)
      ensures Lifecycle.Reloaded(old(Life()), Life(), workflows, idle)
      ensures old(AlarmsKept() && Untouched()) ==> AlarmsKept()
      ensures spaces == old(spaces + Built())
      ensures fresh(gen) && generations == old(generations)[gen.id := gen]
    {
      ReloadedNext(workflows, idle);
      gen := InstallGeneration(workflows, idle);
    }

    method InstallGeneration(workflows: bool, idle: bool) returns (gen: Generation)
      requires Valid() && building.Some?
      modifies this`doNamespaces, this`building, this`spaces
      modifies this`generations, this`nextGenId, this`activeGenId, this`finishing, this`resumedGenIds, this`resumes
      modifies this`phases, this`working, generations.Values`phase, generations.Values`cron
      modifies (spaces + Built())`alarmTimers, (spaces + Built())`live, (spaces + Built())`next
      modifies (spaces + Built())`wired, (spaces + Built())`attached
      ensures Valid() && building == None && doNamespaces == Installed(old(doNamespaces), old(building.value))
      ensures Life() == Lifecycle.Reload(old(Life()), workflows, idle)
      ensures old(AlarmsKept() && Untouched()) ==> AlarmsKept()
      ensures spaces == old(spaces + Built())
      ensures fresh(gen) && generations == old(generations)[gen.id := gen]
    {
      var registry := InstallNamespaces();
      gen := Succeed(registry, workflows, idle);
    }

    /** A generation over installed namespaces takes over from the active one. */
    method Succeed(registry: seq<Binding>, workflows: bool, idle: bool) returns (gen: Generation)
      requires Valid() && building == None && Namespaces(registry) <= spaces
      modifies this`generations, this`nextGenId, this`activeGenId, this`finishing, this`resumedGenIds, this`resumes
      modifies this`phases, this`working, generations.Values`phase, generations.Values`cron
      modifies (spaces - doNamespaces.Values)`alarmTimers, (spaces - doNamespaces.Values)`live
      modifies (spaces - doNamespaces.Values)`attached
      ensures Valid() && Life() == Lifecycle.Reload(old(Life()), workflows, idle)
      ensures old(AlarmsKept()) ==> AlarmsKept()
      ensures fresh(gen) && generations == old(generations)[gen.id := gen]
    {
      gen := AddGeneration(registry, workflows);
      if activeGenId.Some? {
        Retire(idle);
      }
      Activate(gen);
    }

    /** A whole reload, whose worker loads or fails to: the alarms are kept either way, and a failure leaves the
        generations, the shared namespaces and every timer as they were. */
    method Reload(classes: seq<string>, loads: bool, workflows: bool, idle: bool)
      requires Valid() && building == None
      modifies this, generations.Values`phase, generations.Values`cron
      modifies spaces`alarmTimers, spaces`live, spaces`next, spaces`wired, spaces`attached
      ensures Valid() && building == None && (old(AlarmsKept()) ==> AlarmsKept())
      ensures Life() == if loads then Lifecycle.Reload(old(Life()), workflows, idle) else old(Life())
      ensures loads ==> Lifecycle.Reloaded(old(Life()), Life(), workflows, idle)
      ensures loads ==> forall c :: c in doNamespaces <==> c in classes
      ensures loads ==> forall c :: c in doNamespaces && c in old(doNamespaces) ==>
                doNamespaces[c] == old(doNamespaces)[c]
      ensures !loads ==> generations == old(generations) && doNamespaces == old(doNamespaces)
      ensures !loads ==> forall n :: n in old(spaces) ==> n.State() == old(n.State()) && n.attached == old(n.attached)
    {
      BuildEnv(classes);
      if !loads {
        ReadyFails();
        return;
      }
      ghost var shared, registry := doNamespaces, building.value;
      InstalledIs(Base(), shared, registry);
      DeclaresExactly(registry, classes);
      var _ := ReadySucceeds(workflows, idle);
    }

    // ---- Runs ----

    /** Time passes for every namespace at once. */
    method Tick(to: int)
      requires Valid() && AlarmsKept() && clock.now <= to
      modifies clock
      ensures Valid() && AlarmsKept() && (old(Untouched()) ==> Untouched()) && Life() == old(Life())
    {
      clock.Tick(to);
      TickFrame(doNamespaces);
    }

    /** An alarm is set, deleted, fires, is triggered or ends on a shared namespace: no other loses a timer. */
    method TakeAlarm(c: string, e: Alarms.Event) returns (taken: bool)
      requires Valid() && AlarmsKept() && c in doNamespaces
      modifies doNamespaces[c], doNamespaces[c].table
      ensures Valid() && AlarmsKept() && (old(Untouched()) ==> Untouched()) && Life() == old(Life())
      ensures taken <==> e.Set? || e.Delete? || e.TriggerNow? || e.Ends?
                         || (e.Due? && old(Alarms.Enabled(doNamespaces[c].State(), e)))
      ensures var n := doNamespaces[c];
              if taken then n.State() == Alarms.Apply(old(n.State()), e) else n.State() == old(n.State())
    {
      var n := doNamespaces[c];
      assert n.Held();
      taken := n.Take(e);
      HeldFrame(doNamespaces - {c});
      assert n.Held();
    }

    /** A grace window ends, or a generation is drained, stopped or forgotten, if it can be. */
    method Move(e: Lifecycle.Event) returns (moved: bool)
      requires Valid() && !e.Reloads?
      modifies this`finishing, this`generations, this`working
      modifies this`resumedGenIds, this`resumes, this`phases, generations.Values`phase, generations.Values`cron
      modifies (spaces - doNamespaces.Values)`alarmTimers, (spaces - doNamespaces.Values)`live
      modifies (spaces - doNamespaces.Values)`attached
      ensures Valid() && (old(AlarmsKept()) ==> AlarmsKept()) && generations.Values <= old(generations.Values)
      ensures moved <==> Lifecycle.Enabled(old(Life()), e)
      ensures Life() == if moved then Lifecycle.Step(old(Life()), e) else old(Life())
    {
      moved := true;
      match e
      case GraceEnds(id) =>
        moved := id in finishing;
        if moved {
          GraceEnds(id);
        }
      case ForceDrain(id) => ForceDrain(id);
      case ForceStop(id) => StopGeneration(id);
      case Forgets(id) =>
        moved := id in generations && generations[id].phase == Lifecycle.Stopped;
        if moved {
          Forget(id);
        }
    }

    /** What happens to installed namespaces does not touch new ones. */
    twostate lemma NewFrame()
      requires unchanged(this`building) && unchanged(this`doNamespaces) && old(Valid())
      requires forall n: DurableObjectNamespace :: n in Built() && n !in old(spaces) ==> unchanged(n)
      ensures old(Untouched()) ==> Untouched()
    {
    }

    method TakeMove(e: Lifecycle.Event) returns (ghost events: seq<Lifecycle.Event>)
      requires Valid() && AlarmsKept() && Untouched() && !e.Reloads?
      modifies Footprint()
      ensures Valid() && AlarmsKept() && Untouched() && Footprint() <= old(Footprint())
      ensures Follows(old(Life()), events, Life())
    {
      var moved := Move(e);
      NewFrame();
      events := if moved then [e] else [];
    }

    method TakeBuild(classes: seq<string>)
      requires Valid() && AlarmsKept() && building == None
      modifies Footprint()
      ensures Valid() && AlarmsKept() && Untouched() && Life() == old(Life())
      ensures fresh(Footprint() - old(Footprint()))
    {
      BuildEnv(classes);
      forall b | b in building.value ensures b.namespace in spaces || fresh(b.namespace) {
        assert b.className in doNamespaces ==> b.namespace == doNamespaces[b.className];
      }
    }

    method TakeLoad(workflows: bool, idle: bool)
      requires Valid() && AlarmsKept() && Untouched() && building.Some?
      modifies Footprint()
      ensures Valid() && AlarmsKept() && Untouched() && Life() == Lifecycle.Reload(old(Life()), workflows, idle)
      ensures fresh(Footprint() - old(Footprint()))
    {
      var gen := ReadySucceeds(workflows, idle);
      ValuesWith(old(generations), gen.id, gen);
      assert generations.Values <= old(generations.Values) + {gen} && Built() == {};
      assert Footprint() <= old(Footprint()) + {gen};
    }

    /** Anything that can happen to a manager and its shared namespaces; what cannot happen now is passed over. */
    method Take(h: Happening) returns (ghost events: seq<Lifecycle.Event>)
      requires Valid() && AlarmsKept() && Untouched()
      modifies Footprint()
      ensures Valid() && AlarmsKept() && Untouched()
      ensures fresh(Footprint() - old(Footprint()))
      ensures Follows(old(Life()), events, Life())
    {
      events := [];
      match h
      case Ticks(to) =>
        if clock.now <= to {
          Tick(to);
        }
      case Rings(c, alarm) =>
        if c in doNamespaces {
          var _ := TakeAlarm(c, alarm);
        }
      case Moves(e) =>
        if !e.Reloads? {
          events := TakeMove(e);
        }
      case Builds(classes) =>
        if building.None? {
          TakeBuild(classes);
        }
      case Loads(workflows, idle) =>
        if building.Some? {
          TakeLoad(workflows, idle);
          events := [Lifecycle.Reloads(workflows, idle)];
        }
      case LoadFails =>
        if building.Some? {
          ReadyFails();
        }
    }

    // ---- Namespaces that are not shared ----

    /** An alarm set on a namespace that is not the shared one of its class: every shared alarm still has its timer
        exactly when the class is not shared, or the shared namespace had a timer for this instance that is due then
        anyway. */
    method StrayAlarm(n: DurableObjectNamespace, id: string, time: int)
      requires Valid() && AlarmsKept() && n.Valid() && Made(Base(), n.className, n) && n !in doNamespaces.Values
      modifies n, n.table
      ensures Valid() && n.Valid() && n.attached == old(n.attached) && Life() == old(Life())
      ensures n.table.rows == old(n.table.rows)[id := time]
      ensures AlarmsKept() <==>
              (n.className in doNamespaces ==> old(HasTimer(doNamespaces[n.className], id, time)))
    {
      ghost var c := n.className;
      ghost var s := if c in doNamespaces then Some(doNamespaces[c].State()) else None;
      assert c in doNamespaces ==> doNamespaces[c].Held();
      n.SetAlarm(id, time);
      HeldFrame(doNamespaces - {c});
      AllButOne(doNamespaces, c);
      if s.Some? {
        Alarms.RowChanged(s.value, id, time);
        assert doNamespaces[c].State() == s.value.(rows := s.value.rows[id := time]);
      }
    }

    /** The first worker has loaded: as ever, with nothing to retire, and every namespace of the environment is
        attached. */
    method FirstReady(workflows: bool) returns (registry: seq<Binding>)
      requires Valid() && AlarmsKept() && Untouched() && building.Some? && activeGenId == None
      modifies this`doNamespaces, this`building, this`spaces
      modifies this`generations, this`nextGenId, this`activeGenId, this`resumedGenIds, this`resumes
      modifies this`phases, this`working
      modifies (spaces + Built())`alarmTimers, (spaces + Built())`live, (spaces + Built())`next
      modifies (spaces + Built())`wired, (spaces + Built())`attached
      ensures Valid() && AlarmsKept() && building == None && Life() == Lifecycle.Reload(old(Life()), workflows, false)
      ensures registry == old(building.value) && HeldUpTo(registry, |registry|)
      ensures doNamespaces == Installed(old(doNamespaces), registry)
    {
      registry := InstallNamespaces();
      AddFirst(registry, workflows);
    }

    method AddFirst(registry: seq<Binding>, workflows: bool)
      requires Valid() && building == None && Namespaces(registry) <= spaces && activeGenId == None
      modifies this`generations, this`nextGenId, this`activeGenId, this`resumedGenIds, this`resumes
      modifies this`phases, this`working
      ensures Valid() && Life() == Lifecycle.Reload(old(Life()), workflows, false)
      ensures old(AlarmsKept()) ==> AlarmsKept()
    {
      var gen := AddGeneration(registry, workflows);
      Activate(gen);
    }

    method LoadTwice(c: string) returns (stray: DurableObjectNamespace, shared: DurableObjectNamespace)
      requires Valid() && AlarmsKept() && building == None && activeGenId == None
      requires doNamespaces == map[] && tables == map[] && spaces == {}
      modifies this
      ensures Valid() && AlarmsKept() && c in doNamespaces && doNamespaces[c] == shared
      ensures stray !in doNamespaces.Values && Made(Base(), c, stray) && fresh(stray) && fresh(stray.table)
      ensures stray.Held() && shared.table == stray.table && shared.alarmTimers == map[]
    {
      BuildEnv([c, c]);
      var registry := FirstReady(false);
      stray, shared := registry[0].namespace, registry[1].namespace;
      LastIsInstalled(registry, c);
      assert registry[0].namespace.Valid() && registry[1].namespace.Valid();
      EmptyIndex(shared);
    }

    /** A whole life: through every sequence of reloads that load or fail, ends of grace windows, drains, stops, alarms
        on the shared namespaces, and time, in any order, no alarm of a shared namespace is without its timer, and the
        generations are in a state that a run of their life reaches. */
    method Live(hs: seq<Happening>, ghost before: seq<Lifecycle.Event>) returns (ghost events: seq<Lifecycle.Event>)
      requires Valid() && AlarmsKept() && Untouched() && Lifecycle.Run(before) == Some(Life())
      modifies Footprint()
      ensures Valid() && AlarmsKept() && Untouched()
      ensures Lifecycle.Run(events) == Some(Life())
      decreases |hs|
    {
      events := before;
      if hs != [] {
        events := TakeAfter(hs[0], before);
        events := Live(hs[1..], events);
      }
    }

    method TakeAfter(h: Happening, ghost before: seq<Lifecycle.Event>) returns (ghost events: seq<Lifecycle.Event>)
      requires Valid() && AlarmsKept() && Untouched() && Lifecycle.Run(before) == Some(Life())
      modifies Footprint()
      ensures Valid() && AlarmsKept() && Untouched() && fresh(Footprint() - old(Footprint()))
      ensures Lifecycle.Run(events) == Some(Life())
    {
      ghost var l := Life();
      ghost var more := Take(h);
      RunFollows(before, l, more, Life());
      events := before + more;
    }
  }

  /** The index of `n` has a timer for `id` that stands for this time. */
  predicate HasTimer(n: DurableObjectNamespace, id: string, time: int)
    reads n`alarmTimers, n`live
  {
    id in n.alarmTimers && n.alarmTimers[id] in n.live
    && n.live[n.alarmTimers[id]].due == Max(n.live[n.alarmTimers[id]].armed, time)
  }

  function Namespaces(registry: seq<Binding>): set<DurableObjectNamespace> {
    set b | b in registry :: b.namespace
  }

  ghost function Tables(m: map<string, DurableObjectNamespace>): set<AlarmTable> {
    set c | c in m :: m[c].table
  }

  ghost function Clocks(m: map<string, DurableObjectNamespace>): set<Clock> {
    set c | c in m :: m[c].clock
  }

  lemma AllButOne(m: map<string, DurableObjectNamespace>, c: string)
    ensures AllHeld(m) <==> AllHeld(m - {c}) && (c in m ==> m[c].Held())
  {
    if AllHeld(m - {c}) && (c in m ==> m[c].Held()) {
      forall d | d in m ensures m[d].Held() {
        assert d != c ==> (m - {c})[d].Held();
      }
    }
    if AllHeld(m) {
      forall d | d in m - {c} ensures (m - {c})[d].Held() {
        assert m[d].Held();
      }
    }
  }

  ghost predicate AllHeld(m: map<string, DurableObjectNamespace>)
    reads Tables(m)`rows, Clocks(m)`now, m.Values`alarmTimers, m.Values`live, m.Values`next, m.Values`wired
    reads m.Values`running, m.Values`attached
  {
    forall c {:trigger m[c].Held()} :: c in m ==> m[c].Held()
  }

  /** Namespaces that nothing has touched are held as before. */
  twostate lemma HeldFrame(m: map<string, DurableObjectNamespace>)
    requires forall c :: c in m ==> unchanged(m[c]) && unchanged(m[c].table) && unchanged(m[c].clock)
    ensures old(AllHeld(m)) ==> AllHeld(m)
  {
  }

  /** Time that passes leaves them held as well. */
  twostate lemma TickFrame(m: map<string, DurableObjectNamespace>)
    requires forall c :: c in m ==> unchanged(m[c]) && unchanged(m[c].table) && old(m[c].clock.now) <= m[c].clock.now
    ensures old(AllHeld(m)) ==> AllHeld(m)
  {
    if old(AllHeld(m)) {
      forall c | c in m ensures m[c].Held() {
        assert old(m[c].Held());
        Alarms.TickSound(old(m[c].State()), m[c].clock.now);
      }
    }
  }

  predicate Declares(registry: seq<Binding>, c: string) {
    exists i :: 0 <= i < |registry| && registry[i].className == c
  }

  ghost predicate NewUntouched(shared: map<string, DurableObjectNamespace>, registry: seq<Binding>)
    reads Namespaces(registry)`alarmTimers, Namespaces(registry)`live, Namespaces(registry)`attached
  {
    forall b :: b in registry && b.className !in shared ==>
      b.namespace.alarmTimers == map[] && b.namespace.live == map[] && !b.namespace.attached
  }

  /** Shared namespaces that are held, and new ones nobody has touched, are all valid. */
  lemma BuiltValid(shared: map<string, DurableObjectNamespace>, registry: seq<Binding>)
    requires AllHeld(shared) && NewUntouched(shared, registry)
    requires forall b :: b in registry && b.className in shared ==> b.namespace == shared[b.className]
    ensures HeldUpTo(registry, 0)
  {
    forall b | b in registry ensures b.namespace.Valid() {
      if b.className in shared {
        assert shared[b.className].Held();
      }
    }
  }

  lemma HeldAll(registry: seq<Binding>)
    requires HeldUpTo(registry, |registry|)
    ensures forall b {:trigger b.namespace.Held()} :: b in registry ==> b.namespace.Held()
  {
    forall b | b in registry ensures b.namespace.Held() {
      var i :| 0 <= i < |registry| && registry[i] == b;
      assert registry[i].namespace.Valid();
    }
  }

  lemma DeclaresExactly(registry: seq<Binding>, classes: seq<string>)
    requires |registry| == |classes| && forall i :: 0 <= i < |classes| ==> registry[i].className == classes[i]
    ensures forall c :: Declares(registry, c) <==> c in classes
  {
    forall c | c in classes ensures Declares(registry, c) {
      var i :| 0 <= i < |classes| && classes[i] == c;
      assert registry[i].className == c;
    }
  }

  function Repointed(m: map<string, DurableObjectNamespace>, registry: seq<Binding>)
    : map<string, DurableObjectNamespace>
  {
    if registry == [] then m
    else
      var last := registry[|registry| - 1];
      Repointed(m, registry[..|registry| - 1])[last.className := last.namespace]
  }

  lemma {:induction false} RepointedIs(m: map<string, DurableObjectNamespace>, registry: seq<Binding>)
    ensures forall c :: c in Repointed(m, registry) <==> c in m || Declares(registry, c)
    ensures forall c :: c in Repointed(m, registry) ==>
              (!Declares(registry, c) && c in m && Repointed(m, registry)[c] == m[c])
                  || Binding(c, Repointed(m, registry)[c]) in registry
  {
    if registry != [] {
      var front, last := registry[..|registry| - 1], registry[|registry| - 1];
      assert registry == front + [last];
      RepointedIs(m, front);
      assert Declares([last], last.className) && Declares(registry, last.className);
      forall c | c != last.className ensures Declares(registry, c) <==> Declares(front, c) {
        if i :| 0 <= i < |registry| && registry[i].className == c {
          assert front[i].className == c;
        }
        if i :| 0 <= i < |front| && front[i].className == c {
          assert registry[i].className == c;
        }
      }
    }
  }

  function Installed(m: map<string, DurableObjectNamespace>, registry: seq<Binding>)
    : map<string, DurableObjectNamespace>
  {
    map c | c in Repointed(m, registry) && Declares(registry, c) :: Repointed(m, registry)[c]
  }

  lemma InstalledIs(ground: Ground, m: map<string, DurableObjectNamespace>, registry: seq<Binding>)
    requires forall b :: b in registry ==>
               Made(ground, b.className, b.namespace) && (b.className in m ==> b.namespace == m[b.className])
    requires forall c :: c in m ==> Made(ground, c, m[c])
    ensures var n := Installed(m, registry);
            && (forall c :: c in n <==> Declares(registry, c))
            && (forall c :: c in n ==> Made(ground, c, n[c]) && Binding(c, n[c]) in registry)
            && (forall c :: c in n && c in m ==> n[c] == m[c])
  {
    RepointedIs(m, registry);
  }

  lemma InstalledConnected(
    spaces: set<DurableObjectNamespace>, ground: Ground, m: map<string, DurableObjectNamespace>,
    registry: seq<Binding>, generations: map<nat, Generation>)
    requires Connected(spaces, ground, m, generations) && Bound(spaces, ground, m, registry)
    ensures Connected(spaces + Namespaces(registry), ground, Installed(m, registry), generations)
    ensures forall b :: b in registry ==>
              b.namespace.className == b.className && (b.className in m ==> b.namespace == m[b.className])
    ensures forall c :: c in m ==> m[c].className == c
    ensures m.Values <= spaces
  {
    InstalledIs(ground, m, registry);
  }

  lemma UnlistedOther(m: map<string, DurableObjectNamespace>, registry: seq<Binding>, i: nat) returns (j: nat)
    requires i < |registry| && registry[i].namespace !in Installed(m, registry).Values
    ensures j < |registry| && registry[i].className == registry[j].className
    ensures registry[i].namespace != registry[j].namespace
  {
    var c := registry[i].className;
    RepointedIs(m, registry);
    assert Declares(registry, c) && c in Installed(m, registry);
    assert Binding(c, Installed(m, registry)[c]) in registry;
    j :| 0 <= j < |registry| && registry[j] == Binding(c, Installed(m, registry)[c]);
  }

  lemma OtherUnlisted(m: map<string, DurableObjectNamespace>, registry: seq<Binding>, i: nat, j: nat)
    requires forall b :: b in registry ==> b.namespace.className == b.className
    requires i < |registry| && j < |registry| && registry[i].className == registry[j].className
    requires registry[i].namespace != registry[j].namespace
    ensures exists b :: b in registry && b.namespace !in Installed(m, registry).Values
  {
    var n := Installed(m, registry);
    RepointedIs(m, registry);
    forall c, b | c in n && b in registry && n[c] == b.namespace ensures c == b.className {
      assert Binding(c, n[c]) in registry;
    }
    var b := if n[registry[i].className] == registry[i].namespace then registry[j] else registry[i];
    assert b in registry && b.namespace !in n.Values;
  }

  /** A new environment arms a namespace that no list holds exactly when it declares a class twice that is not
      shared. */
  lemma UnlistedWhen(m: map<string, DurableObjectNamespace>, registry: seq<Binding>)
    requires SharedOnly(m, registry) && forall b :: b in registry ==> b.namespace.className == b.className
    ensures (exists b :: b in registry && b.namespace !in Installed(m, registry).Values) <==>
            (exists i, j :: 0 <= i < j < |registry| && registry[i].className == registry[j].className
                            && registry[i].className !in m)
  {
    if b :| b in registry && b.namespace !in Installed(m, registry).Values {
      var i :| 0 <= i < |registry| && registry[i] == b;
      var j := UnlistedOther(m, registry, i);
      var lo, hi := if i < j then i else j, if i < j then j else i;
      assert lo < hi && registry[lo].className == registry[hi].className && registry[lo].className !in m;
    }
    if i, j :|
      0 <= i < j < |registry| && registry[i].className == registry[j].className && registry[i].className !in m
    {
      OtherUnlisted(m, registry, i, j);
    }
  }

  /** All are valid, and the first `i` are attached. */
  ghost predicate HeldUpTo(registry: seq<Binding>, i: nat)
    reads Namespaces(registry), set b | b in registry :: b.namespace.table, set b | b in registry :: b.namespace.clock
  {
    forall j {:trigger registry[j].namespace.Valid()} :: 0 <= j < |registry| ==>
      registry[j].namespace.Valid() && (j < i ==> registry[j].namespace.Held())
  }

  method Attach(registry: seq<Binding>, i: nat)
    requires i < |registry|
    modifies registry[i].namespace`alarmTimers, registry[i].namespace`live, registry[i].namespace`next
    modifies registry[i].namespace`wired, registry[i].namespace`attached
    ensures old(HeldUpTo(registry, i)) ==> HeldUpTo(registry, i + 1)
  {
    ghost var held := HeldUpTo(registry, i);
    var n := registry[i].namespace;
    assert held ==> n.Valid();
    var _ := n.SetClass();
    if held {
      forall j | 0 <= j < |registry| && registry[j].namespace != n
        ensures registry[j].namespace.Valid() && (j < i ==> registry[j].namespace.Held())
      {
        assert old(registry[j].namespace.Valid());
      }
    }
  }

  /** Points the shared namespaces at a new registry and arms all their alarms. */
  method Rewire(shared: map<string, DurableObjectNamespace>, registry: seq<Binding>)
    returns (m: map<string, DurableObjectNamespace>)
    modifies Namespaces(registry)`alarmTimers, Namespaces(registry)`live, Namespaces(registry)`next
    modifies Namespaces(registry)`wired, Namespaces(registry)`attached
    ensures m == Repointed(shared, registry)
    ensures old(HeldUpTo(registry, 0)) ==> HeldUpTo(registry, |registry|)
  {
    ghost var sound := HeldUpTo(registry, 0);
    m := shared;
    for i := 0 to |registry|
      invariant m == Repointed(shared, registry[..i])
      invariant sound ==> HeldUpTo(registry, i)
    {
      assert registry[..i + 1][..i] == registry[..i];
      m := m[registry[i].className := registry[i].namespace];
      Attach(registry, i);
    }
    assert registry[..|registry|] == registry;
  }

  /** Destroys and drops the namespaces of classes that are no longer declared. */
  method Prune(shared: map<string, DurableObjectNamespace>, registry: seq<Binding>)
    returns (m: map<string, DurableObjectNamespace>)
    requires forall b :: b in registry ==> b.namespace.className == b.className
    requires forall c :: c in shared ==> shared[c].className == c
    modifies (shared.Values - Namespaces(registry))`alarmTimers, (shared.Values - Namespaces(registry))`live
    modifies (shared.Values - Namespaces(registry))`attached
    ensures m == map c | c in shared && Declares(registry, c) :: shared[c]
    ensures forall c :: c in shared && !Declares(registry, c) ==> shared[c].alarmTimers == map[]
  {
    m := shared;
    var left := shared.Keys;
    while left != {}
      invariant m == map c | c in shared && (c in left || Declares(registry, c)) :: shared[c]
      invariant left <= shared.Keys
      invariant forall c :: c in shared && c !in left && !Declares(registry, c) ==> shared[c].alarmTimers == map[]
      decreases left
    {
      var c :| c in left;
      if !Declares(registry, c) {
        NotBound(registry, c, shared[c]);
        shared[c].ClearAlarmTimers();
        m := m - {c};
      }
      left := left - {c};
    }
  }

  lemma NotBound(registry: seq<Binding>, c: string, n: DurableObjectNamespace)
    requires forall b :: b in registry ==> b.namespace.className == b.className
    requires n.className == c && !Declares(registry, c)
    ensures n !in Namespaces(registry)
  {
    forall b | b in registry ensures Declares(registry, b.className) {
      var i :| 0 <= i < |registry| && registry[i] == b;
    }
  }

  method Destroy(
    ghost shared: map<string, DurableObjectNamespace>, wired: map<string, DurableObjectNamespace>,
    registry: seq<Binding>)
    returns (m: map<string, DurableObjectNamespace>)
    requires forall b :: b in registry ==> b.namespace.className == b.className
    requires forall c :: c in shared ==> shared[c].className == c
    requires wired == Repointed(shared, registry)
    modifies (shared.Values - Namespaces(registry))`alarmTimers, (shared.Values - Namespaces(registry))`live
    modifies (shared.Values - Namespaces(registry))`attached
    ensures m == Installed(shared, registry)
    ensures old(HeldUpTo(registry, |registry|)) ==> AllHeld(m) && HeldUpTo(registry, |registry|)
    ensures forall c :: c in shared && !Declares(registry, c) ==> shared[c].alarmTimers == map[]
  {
    if HeldUpTo(registry, |registry|) {
      HeldAll(registry);
    }
    RepointedIs(shared, registry);
    m := Prune(wired, registry);
    HeldFrame(m);
  }

  /** The namespaces of the classes a registry declares, each with a timer for every alarm of its class; those of other
      classes are destroyed. */
  method Install(shared: map<string, DurableObjectNamespace>, registry: seq<Binding>)
    returns (m: map<string, DurableObjectNamespace>)
    requires forall b :: b in registry ==>
               b.namespace.className == b.className && (b.className in shared ==> b.namespace == shared[b.className])
    requires forall c :: c in shared ==> shared[c].className == c
    modifies (shared.Values + Namespaces(registry))`alarmTimers, (shared.Values + Namespaces(registry))`live
    modifies Namespaces(registry)`next, Namespaces(registry)`wired, (shared.Values + Namespaces(registry))`attached
    ensures m == Installed(shared, registry)
    ensures old(AllHeld(shared) && NewUntouched(shared, registry)) ==> AllHeld(m) && HeldUpTo(registry, |registry|)
    ensures forall c :: c in shared && !Declares(registry, c) ==> shared[c].alarmTimers == map[]
  {
    if AllHeld(shared) && NewUntouched(shared, registry) {
      BuiltValid(shared, registry);
    }
    var wired := Rewire(shared, registry);
    m := Destroy(shared, wired, registry);
  }

  /** A first load of a class declared twice: two namespaces are attached to one empty table, and one of them is
      shared. */
  method DeclaredTwice(c: string)
    returns (manager: GenerationManager, stray: DurableObjectNamespace, shared: DurableObjectNamespace)
    ensures fresh(manager) && manager.Valid() && manager.AlarmsKept()
    ensures c in manager.doNamespaces && manager.doNamespaces[c] == shared && stray !in manager.doNamespaces.Values
    ensures Made(manager.Base(), c, stray) && fresh(stray) && fresh(stray.table)
    ensures stray.Held() && shared.table == stray.table && shared.alarmTimers == map[]
  {
    var clock := new Clock(0);
    manager := new GenerationManager(false, clock);
    stray, shared := manager.LoadTwice(c);
  }

  /** An alarm then set on the namespace that is not shared leaves a row of the shared one without a timer. */
  method DoubleBinding(c: string, id: string, time: int)
    returns (manager: GenerationManager, stray: DurableObjectNamespace, shared: DurableObjectNamespace)
    ensures fresh(manager) && manager.Valid() && !manager.AlarmsKept()
    ensures c in manager.doNamespaces && manager.doNamespaces[c] == shared && stray != shared && stray.Held()
    ensures stray.table == shared.table && id in shared.table.rows && id !in shared.alarmTimers
  {
    manager, stray, shared := DeclaredTwice(c);
    manager.StrayAlarm(stray, id, time);
  }

  /** Over a table without a row there is no timer. */
  lemma EmptyIndex(n: DurableObjectNamespace)
    requires n.Valid() && n.table.rows == map[]
    ensures n.alarmTimers == map[]
  {
    assert forall o :: o in n.alarmTimers ==> Alarms.GoodEntry(n.State(), o);
  }

  lemma LastIsInstalled(registry: seq<Binding>, c: string)
    requires |registry| == 2 && registry[0].className == c && registry[1].className == c
    ensures Installed(map[], registry) == map[c := registry[1].namespace]
  {
    assert registry[..1] == [registry[0]] && registry[..1][..0] == [];
    assert Repointed(map[], registry[..1]) == map[c := registry[0].namespace];
    assert Declares(registry, c);
  }
}

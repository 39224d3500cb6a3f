/** The command channel to a Durable Object worker: commands posted with an id, results that settle them, and
    teardown. */
module Executor {
  import opened Basics

  datatype Reply<V> = Value(value: V) | Error(error: string)

  /** Why a posted command was settled: a result carrying its id, teardown, or a post that threw. */
  datatype Cause<V> = ByResult(reply: Reply<V>) | ByTeardown(error: string) | ByPost(error: string)

  datatype Settlement<V> = Settlement(id: nat, cause: Cause<V>)

  /** A command of the namespace before and after it is posted. */
  datatype Caller = Waiting | Posted(id: nat) | Refused

  datatype State<V> = State(
    pending: set<nat>, inFlight: int, next: nat, disposed: bool, callers: seq<Caller>, settled: seq<Settlement<V>>)

  function Start<V>(): State<V> {
    State({}, 0, 1, false, [], [])
  }

  /** The promise of `id` is resolved or rejected, which also counts it out. */
  function Settle<V>(s: State<V>, id: nat, cause: Cause<V>): State<V> {
    s.(pending := s.pending - {id}, inFlight := s.inFlight - 1, settled := s.settled + [Settlement(id, cause)])
  }

  /** A disposed executor throws at once; otherwise the command waits for the worker to be ready. */
  function Command<V>(s: State<V>): State<V> {
    s.(callers := s.callers + [if s.disposed then Refused else Waiting])
  }

  function PostCommand<V>(s: State<V>, c: nat, thrown: Option<string>): State<V>
    requires c < |s.callers|
  {
    if s.disposed then s.(callers := s.callers[c := Refused])
    else
      var posted := s.(callers := s.callers[c := Posted(s.next)], pending := s.pending + {s.next},
                       inFlight := s.inFlight + 1, next := s.next + 1);
      if thrown.Some? then Settle(posted, s.next, ByPost(thrown.value)) else posted
  }

  /** Every pending command is rejected, in the order the table lists them. */
  function Reject<V>(s: State<V>, order: seq<nat>, error: string): State<V> {
    if order == [] then s
    else Settle(Reject(s, order[..|order| - 1], error), order[|order| - 1], ByTeardown(error))
  }

  function Teardown<V>(s: State<V>, order: seq<nat>, error: string): State<V> {
    Reject(s, order, error).(disposed := true)
  }

  /** A message `result`; id -1 with an error says the worker failed to start. */
  function Receive<V>(s: State<V>, id: int, reply: Reply<V>, order: seq<nat>): State<V> {
    if s.disposed then s
    else if id == -1 && reply.Error? then Teardown(s, order, reply.error)
    else if id >= 0 && id in s.pending then Settle(s, id, ByResult(reply))
    else s
  }

  datatype Event<V> =
    | Commands
    | Posts(caller: nat, thrown: Option<string>)
    | Receives(id: int, reply: Reply<V>, order: seq<nat>)
    | Crashes(error: string, order: seq<nat>)
    | Disposes(order: seq<nat>)

  /** `order` lists what is pending, each once. */
  ghost predicate Lists<V>(s: State<V>, order: seq<nat>) {
    (forall id :: id in order <==> id in s.pending) && forall i, j :: 0 <= i < j < |order| ==> order[i] != order[j]
  }

  ghost predicate Enabled<V>(s: State<V>, e: Event<V>) {
    match e
    case Commands => true
    case Posts(c, _) => c < |s.callers| && s.callers[c] == Waiting
    case Receives(_, _, order) => Lists(s, order)
    case Crashes(_, order) => Lists(s, order)
    case Disposes(order) => Lists(s, order)
  }

  ghost function Step<V>(s: State<V>, e: Event<V>): State<V>
    requires Enabled(s, e)
  {
    match e
    case Commands => Command(s)
    case Posts(c, thrown) => PostCommand(s, c, thrown)
    case Receives(id, reply, order) => Receive(s, id, reply, order)
    case Crashes(error, order) => if s.disposed then s else Teardown(s, order, error)
    case Disposes(order) => Teardown(s, order, "Worker terminated")
  }

  ghost function After<V>(events: seq<Event<V>>): Option<State<V>> {
    if events == [] then Some(Start())
    else
      var before :- After(events[..|events| - 1]);
      if Enabled(before, events[|events| - 1]) then Some(Step(before, events[|events| - 1])) else None
  }

  function Times<V>(settled: seq<Settlement<V>>, id: nat): nat {
    if settled == [] then 0
    else Times(settled[..|settled| - 1], id) + if settled[|settled| - 1].id == id then 1 else 0
  }

  // ---- Exactly once ----

  /** Every posted command is pending or has been settled once, never both; the counter is the size of the table. */
  ghost predicate Balanced<V>(s: State<V>) {
    && s.inFlight == |s.pending|
    && (forall id :: id in s.pending ==> 0 < id < s.next)
    && (forall id: nat :: Times(s.settled, id) == if 0 < id < s.next && id !in s.pending then 1 else 0)
  }

  ghost predicate Inv<V>(s: State<V>) {
    && s.next > 0
    && Balanced(s)
    && (s.disposed ==> s.pending == {})
    && Distinct(s)
  }

  /** Every posted caller has an id of its own. */
  ghost predicate Distinct<V>(s: State<V>) {
    && (forall c :: 0 <= c < |s.callers| && s.callers[c].Posted? ==> 0 < s.callers[c].id < s.next)
    && forall c, d :: 0 <= c < d < |s.callers| && s.callers[c].Posted? ==> s.callers[c] != s.callers[d]
  }

  lemma TimesPush<V>(settled: seq<Settlement<V>>, x: Settlement<V>, id: nat)
    ensures Times(settled + [x], id) == Times(settled, id) + if x.id == id then 1 else 0
  {
    assert (settled + [x])[..|settled + [x]| - 1] == settled;
  }

  lemma SettleKeeps<V>(s: State<V>, id: nat, cause: Cause<V>)
    requires Balanced(s) && id in s.pending
    ensures Balanced(Settle(s, id, cause))
  {
    forall o: nat ensures Times(Settle(s, id, cause).settled, o) == Times(s.settled, o) + if id == o then 1 else 0 {
      TimesPush(s.settled, Settlement(id, cause), o);
    }
  }

  lemma {:induction false} RejectKeeps<V>(s: State<V>, order: seq<nat>, error: string)
    requires Balanced(s) && (forall id :: id in order ==> id in s.pending)
    requires forall i, j :: 0 <= i < j < |order| ==> order[i] != order[j]
    ensures var t := Reject(s, order, error);
            Balanced(t) && t.next == s.next && t.callers == s.callers && t.disposed == s.disposed
            && forall id :: id in t.pending <==> id in s.pending && id !in order
  {
    if order != [] {
      var front, last := order[..|order| - 1], order[|order| - 1];
      assert order == front + [last] && last in order;
      RejectKeeps(s, front, error);
      SettleKeeps(Reject(s, front, error), last, ByTeardown(error));
    }
  }

  lemma TeardownKeeps<V>(s: State<V>, order: seq<nat>, error: string)
    requires Inv(s) && Lists(s, order)
    ensures Inv(Teardown(s, order, error))
  {
    RejectKeeps(s, order, error);
  }

  lemma PostKeeps<V>(s: State<V>, c: nat, thrown: Option<string>)
    requires Inv(s) && c < |s.callers|
    ensures Inv(PostCommand(s, c, thrown))
  {
    if !s.disposed {
      var posted := PostCommand(s, c, None);
      assert Balanced(posted) && Distinct(posted);
      if thrown.Some? {
        SettleKeeps(posted, s.next, ByPost(thrown.value));
      }
    }
  }

  lemma PostSettles<V>(s: State<V>, c: nat, thrown: Option<string>)
    requires Inv(s) && c < |s.callers| && !s.disposed
    ensures var t := PostCommand(s, c, thrown);
            && s.next !in s.pending && (s.next in t.pending <==> thrown.None?)
            && Times(t.settled, s.next) == if thrown.None? then 0 else 1
  {
    PostKeeps(s, c, thrown);
  }

  lemma StepKeeps<V>(s: State<V>, e: Event<V>)
    requires Inv(s) && Enabled(s, e)
    ensures Inv(Step(s, e))
  {
    match e
    case Commands =>
    case Posts(c, thrown) => PostKeeps(s, c, thrown);
    case Receives(id, reply, order) =>
      if !s.disposed && id == -1 && reply.Error? {
        TeardownKeeps(s, order, reply.error);
      } else if !s.disposed && id >= 0 && id in s.pending {
        SettleKeeps(s, id, ByResult(reply));
      }
    case Crashes(error, order) => TeardownKeeps(s, order, error);
    case Disposes(order) => TeardownKeeps(s, order, "Worker terminated");
  }

  lemma {:induction false} Reachable<V>(events: seq<Event<V>>)
    requires After(events).Some?
    ensures Inv(After(events).value)
  {
    if events != [] {
      Reachable(events[..|events| - 1]);
      StepKeeps(After(events[..|events| - 1]).value, events[|events| - 1]);
    }
  }

  /** In every reachable state each posted command is pending and unsettled or has been settled exactly once, under
      an id no other has; and the counter is the number pending. */
  lemma ExactlyOnce<V>(events: seq<Event<V>>, c: nat)
    requires After(events).Some? && c < |After(events).value.callers|
    ensures var s := After(events).value;
            s.inFlight == |s.pending|
            && (s.callers[c].Posted? ==>
                  var id := s.callers[c].id;
                  && Times(s.settled, id) == (if id in s.pending then 0 else 1)
                  && forall d :: 0 <= d < |s.callers| && d != c ==> s.callers[d] != s.callers[c])
  {
    Reachable(events);
  }

  lemma ListsSome<V>(s: State<V>, order: seq<nat>)
    requires Lists(s, order)
    ensures order == [] || s.pending != {}
  {
    if order != [] {
      assert order[0] in s.pending;
    }
  }

  /** After teardown nothing is pending, nothing more is ever settled, and no step makes anything pending. */
  lemma NothingAfterTeardown<V>(events: seq<Event<V>>, e: Event<V>)
    requires After(events).Some? && After(events).value.disposed && Enabled(After(events).value, e)
    ensures var s := After(events).value; var t := Step(s, e);
            s.pending == {} && t.pending == {} && t.disposed && t.settled == s.settled && t.inFlight == s.inFlight == 0
            && (e.Posts? ==> t.callers[e.caller] == Refused)
  {
    Reachable(events);
    var s := After(events).value;
    if e.Disposes? {
      ListsSome(s, e.order);
    }
  }

  /** What may settle a command in state `s`: a result that carries its id, or the error of a teardown, while it is
      pending; or its own post, when that throws. */
  ghost predicate Justified<V>(s: State<V>, e: Event<V>, x: Settlement<V>) {
    match x.cause
    case ByResult(reply) => x.id in s.pending && e.Receives? && e.id == x.id && e.reply == reply
    case ByTeardown(error) => x.id in s.pending && TearsDown(e, error)
    case ByPost(error) => x.id == s.next && e.Posts? && e.thrown == Some(error)
  }

  predicate TearsDown<V>(e: Event<V>, error: string) {
    match e
    case Disposes(_) => error == "Worker terminated"
    case Crashes(message, _) => error == message
    case Receives(id, reply, _) => id == -1 && reply == Error(error)
    case Commands => false
    case Posts(_, _) => false
  }

  lemma {:induction false} RejectSettles<V>(s: State<V>, order: seq<nat>, error: string)
    ensures s.settled <= Reject(s, order, error).settled
    ensures forall k :: |s.settled| <= k < |Reject(s, order, error).settled| ==>
              Reject(s, order, error).settled[k].cause == ByTeardown(error)
                  && Reject(s, order, error).settled[k].id in order
  {
    if order != [] {
      var front, last := order[..|order| - 1], order[|order| - 1];
      RejectSettles(s, front, error);
      assert order == front + [last];
    }
  }

  lemma StepJustifies<V>(s: State<V>, e: Event<V>, k: nat)
    requires Enabled(s, e) && |s.settled| <= k < |Step(s, e).settled|
    ensures Justified(s, e, Step(s, e).settled[k])
  {
    match e
    case Posts(_, _) =>
    case Receives(id, reply, order) =>
      if id == -1 && reply.Error? {
        RejectSettles(s, order, reply.error);
      }
    case Crashes(error, order) => RejectSettles(s, order, error);
    case Disposes(order) => RejectSettles(s, order, "Worker terminated");
    case Commands =>
  }

  lemma StepAppends<V>(s: State<V>, e: Event<V>)
    requires Enabled(s, e)
    ensures s.settled <= Step(s, e).settled
  {
    match e
    case Receives(_, reply, order) => if reply.Error? { RejectSettles(s, order, reply.error); }
    case Crashes(error, order) => RejectSettles(s, order, error);
    case Disposes(order) => RejectSettles(s, order, "Worker terminated");
    case Posts(_, _) =>
    case Commands =>
  }

  lemma LastStep<V>(events: seq<Event<V>>)
    requires After(events).Some? && After(events).value.settled != []
    ensures events != []
    ensures var front, e := events[..|events| - 1], events[|events| - 1];
            && After(front).Some? && Enabled(After(front).value, e)
            && After(events) == Some(Step(After(front).value, e))
  {
  }

  /** Nothing is settled by another command's result: each settlement was made by an event that was justified in the
      state it came to. */
  lemma {:induction false} SettledByItsOwn<V>(events: seq<Event<V>>, k: nat) returns (i: nat)
    requires After(events).Some? && k < |After(events).value.settled|
    ensures i < |events| && After(events[..i]).Some? && After(events[..i + 1]).Some?
    ensures |After(events[..i]).value.settled| <= k < |After(events[..i + 1]).value.settled|
    ensures Justified(After(events[..i]).value, events[i], After(events).value.settled[k])
  {
    LastStep(events);
    var front := events[..|events| - 1];
    var s := After(front).value;
    StepAppends(s, events[|events| - 1]);
    if k < |s.settled| {
      i := SettledByItsOwn(front, k);
      assert front[..i] == events[..i] && front[..i + 1] == events[..i + 1];
    } else {
      i := |events| - 1;
      assert events[..i + 1] == events;
      StepJustifies(s, events[i], k);
    }
  }

  /** A result settles the pending command whose id it carries, and no other. */
  lemma ResultSettles<V>(s: State<V>, id: nat, reply: Reply<V>, order: seq<nat>)
    requires !s.disposed && id in s.pending && Lists(s, order)
    ensures var t := Step(s, Receives(id, reply, order));
            t.settled == s.settled + [Settlement(id, ByResult(reply))] && t.pending == s.pending - {id} && !t.disposed
  {
  }

  lemma {:induction false} RejectsEach<V>(s: State<V>, order: seq<nat>, error: string)
    ensures forall id :: id in order ==> Settlement(id, ByTeardown(error)) in Reject(s, order, error).settled
  {
    if order != [] {
      RejectsEach(s, order[..|order| - 1], error);
    }
  }

  /** A failed start, a crash or a disposal closes the executor and rejects every pending command with its error. */
  lemma TeardownRejectsAll<V>(s: State<V>, e: Event<V>, error: string)
    requires !s.disposed && Enabled(s, e) && TearsDown(e, error)
    ensures var t := Step(s, e);
            && t.disposed && t.pending == {} && t.callers == s.callers
            && forall id :: id in s.pending ==> Settlement(id, ByTeardown(error)) in t.settled
  {
    var order := e.order;
    RejectsEach(s, order, error);
    Emptied(s, order, error);
  }

  // ---- The object ----

  class WorkerExecutor<V> {
    var pending: set<nat>
    var inFlight: int
    var nextId: nat
    var disposed: bool
    ghost var callers: seq<Caller>
    ghost var settled: seq<Settlement<V>>

    ghost function View(): State<V>
      reads this
    {
      State(pending, inFlight, nextId, disposed, callers, settled)
    }

    ghost predicate Valid()
      reads this
    {
      Inv(View())
    }

    constructor ()
      ensures Valid() && View() == Start()
    {
      pending, inFlight, nextId, disposed, callers, settled := {}, 0, 1, false, [], [];
    }

    /** The closures kept for a pending command: they count it out and settle its promise. */
    method SettlePromise(id: nat, ghost cause: Cause<V>)
      modifies this`inFlight, this`settled
      ensures View() == Settle(old(View()), id, cause).(pending := pending)
    {
      inFlight := inFlight - 1;
      settled := settled + [Settlement(id, cause)];
    }

    /** Up to the wait for the worker. */
    method SendCommand() returns (accepted: bool, ghost c: nat)
      requires Valid()
      modifies this`callers
      ensures Valid() && View() == Command(old(View())) && accepted == !disposed && c == |callers| - 1
    {
      accepted := !disposed;
      callers := callers + [if disposed then Refused else Waiting];
      c := |callers| - 1;
    }

    /** After that wait. `thrown` is what posting the message throws. */
    method Post(ghost c: nat, thrown: Option<string>) returns (id: Option<nat>)
      requires Valid() && c < |callers|
      modifies this
      ensures Valid() && View() == PostCommand(old(View()), c, thrown)
      ensures id == if old(disposed) then None else Some(old(nextId))
      ensures id.Some? ==> id.value !in old(pending) && (id.value in pending <==> thrown.None?)
      ensures id.Some? ==> Times(settled, id.value) == if thrown.None? then 0 else 1
      ensures callers == old(callers)[c := if id.Some? then Posted(id.value) else Refused]
    {
      PostKeeps(View(), c, thrown);
      if disposed {
        callers := callers[c := Refused];
        return None;
      }
      PostSettles(View(), c, thrown);
      var mine := nextId;
      callers := callers[c := Posted(mine)];
      nextId, inFlight := nextId + 1, inFlight + 1;
      pending := pending + {mine};
      if thrown.Some? {
        PutBack(mine, thrown.value);
      }
      id := Some(mine);
    }

    method PutBack(id: nat, ghost error: string)
      modifies this`pending, this`inFlight, this`settled
      ensures View() == Settle(old(View()), id, ByPost(error))
    {
      pending := pending - {id};
      SettlePromise(id, ByPost(error));
    }

    method OnResult(id: int, reply: Reply<V>) returns (ghost order: seq<nat>)
      requires Valid()
      modifies this
      ensures Valid() && Lists(old(View()), order) && View() == Receive(old(View()), id, reply, order)
      ensures id >= 0 ==> id !in pending && forall o: nat :: o != id ==> (o in pending <==> o in old(pending))
    {
      if disposed {
        order := Order(pending);
      } else if id == -1 && reply.Error? {
        order := TearDown(reply.error);
      } else {
        order := Order(pending);
        if id >= 0 && id in pending {
          SettleKeeps(View(), id, ByResult(reply));
          pending := pending - {id};
          SettlePromise(id, ByResult(reply));
        }
      }
    }

    /** Rejects every pending command and closes the executor for good. */
    method TearDown(error: string) returns (ghost order: seq<nat>)
      requires Valid()
      modifies this
      ensures Valid() && disposed && pending == {} && inFlight == 0
      ensures Lists(old(View()), order) && View() == Teardown(old(View()), order, error)
    {
      order := [];
      disposed := true;
      var left := pending;
      ghost var before := old(View());
      while left != {}
        invariant left <= pending && pending == before.pending && disposed && nextId == before.next
        invariant callers == before.callers
        invariant forall id :: id in order <==> id in before.pending && id !in left
        invariant forall i, j :: 0 <= i < j < |order| ==> order[i] != order[j]
        invariant inFlight == Reject(before, order, error).inFlight && settled == Reject(before, order, error).settled
        decreases left
      {
        var id :| id in left;
        SettlePromise(id, ByTeardown(error));
        left := left - {id};
        assert (order + [id])[..|order|] == order;
        order := order + [id];
      }
      pending := {};
      Emptied(before, order, error);
      TeardownKeeps(before, order, error);
    }
  }

  ghost method Order(ids: set<nat>) returns (order: seq<nat>)
    ensures (forall id :: id in order <==> id in ids) && forall i, j :: 0 <= i < j < |order| ==> order[i] != order[j]
  {
    order := [];
    var left := ids;
    while left != {}
      invariant left <= ids
      invariant forall id :: id in order <==> id in ids && id !in left
      invariant forall i, j :: 0 <= i < j < |order| ==> order[i] != order[j]
    {
      var id :| id in left;
      left, order := left - {id}, order + [id];
    }
  }

  lemma {:induction false} Emptied<V>(s: State<V>, order: seq<nat>, error: string)
    ensures Reject(s, order, error).pending == s.pending - (set id | id in order)
    ensures Reject(s, order, error).next == s.next && Reject(s, order, error).callers == s.callers
  {
    if order != [] {
      Emptied(s, order[..|order| - 1], error);
      assert order == order[..|order| - 1] + [order[|order| - 1]];
    }
  }
}

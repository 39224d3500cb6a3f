/** A D1 connection: single statements, `exec` and `batch` as the program runs them under the lock, and what
    each of them does to the database as a function. */
module D1Database {
  import opened Basics

  /** A statement either takes effect, is refused without effect, or is refused and ends the open transaction. */
  datatype Effect<D, R> = Done(data: D, result: R) | Refused(error: string) | RolledBack(error: string)

  type Engine<!D, !R> = (string, D) -> Effect<D, R>

  datatype Ran<D, R> = Ran(data: D, results: seq<R>) | Stopped(error: string)

  datatype After<D, R> = After(data: D, outcome: Result<seq<R>, string>)

  datatype Call = Batch(stmts: seq<string>, commits: bool) | Exec(stmts: seq<string>) | Single(sql: string)

  /** The database file, and while a transaction is open what ROLLBACK would restore. */
  datatype Store<D> = Store(data: D, saved: Option<D>) {

    function Undone(): Store<D> {
      if saved.Some? then Store(saved.value, None) else this
    }
  }

  function Statements(call: Call): seq<string> {
    match call
    case Batch(stmts, _) => stmts
    case Exec(stmts) => stmts
    case Single(sql) => [sql]
  }

  /** One statement, inside or outside a transaction. */
  function RunOne<D, R>(engine: Engine<D, R>, sql: string, store: Store<D>): (Store<D>, Result<R, string>) {
    match engine(sql, store.data)
    case Done(data, result) => (store.(data := data), Success(result))
    case Refused(error) => (store, Failure(error))
    case RolledBack(error) => (store.Undone(), Failure(error))
  }

  /** The first `k` statements in order, stopping at the first refusal. */
  function RunFirst<D, R>(engine: Engine<D, R>, stmts: seq<string>, k: nat, d: D): Ran<D, R>
    requires k <= |stmts|
  {
    if k == 0 then Ran(d, [])
    else
      var before := RunFirst(engine, stmts, k - 1, d);
      if before.Stopped? then before
      else
        match engine(stmts[k - 1], before.data)
        case Done(data, result) => Ran(data, before.results + [result])
        case Refused(error) => Stopped(error)
        case RolledBack(error) => Stopped(error)
  }

  /** All or nothing: a refused statement, or a refused COMMIT, leaves the database as it was. */
  function BatchAfter<D, R>(engine: Engine<D, R>, stmts: seq<string>, commits: bool, d: D): After<D, R> {
    var ran := RunFirst(engine, stmts, |stmts|, d);
    if ran.Stopped? then After(d, Failure(ran.error))
    else if commits then After(ran.data, Success(ran.results))
    else After(d, Failure("commit refused"))
  }

  /** The successful prefix stays, each statement in its own implicit transaction. */
  function ExecAfter<D, R>(engine: Engine<D, R>, stmts: seq<string>, results: seq<R>, d: D): After<D, R> {
    if stmts == [] then After(d, Success(results))
    else
      match engine(stmts[0], d)
      case Done(data, result) => ExecAfter(engine, stmts[1..], results + [result], data)
      case Refused(error) => After(d, Failure(error))
      case RolledBack(error) => After(d, Failure(error))
  }

  function CallAfter<D, R>(engine: Engine<D, R>, call: Call, d: D): After<D, R> {
    match call
    case Batch(stmts, commits) => BatchAfter(engine, stmts, commits, d)
    case Exec(stmts) => ExecAfter(engine, stmts, [], d)
    case Single(sql) => ExecAfter(engine, [sql], [], d)
  }

  class Connection<D, R> {
    const engine: Engine<D, R>
    var data: D
    /** What ROLLBACK would restore, while a transaction is open. */
    var saved: Option<D>

    constructor (engine: Engine<D, R>, data: D)
      ensures this.engine == engine && this.data == data && saved == None
    {
      this.engine := engine;
      this.data := data;
      saved := None;
    }

    method Begin() returns (r: Result<(), string>)
      modifies this
      ensures old(saved).Some? ==> r.Failure? && saved == old(saved) && data == old(data)
      ensures old(saved).None? ==> r.Success? && saved == Some(data) && data == old(data)
    {
      if saved.Some? {
        return Failure("cannot start a transaction within a transaction");
      }
      saved := Some(data);
      r := Success(());
    }

    method Commit(commits: bool) returns (r: Result<(), string>)
      modifies this
      ensures r.Success? == (old(saved).Some? && commits) && data == old(data)
      ensures saved == if r.Success? then None else old(saved)
      ensures r.Failure? ==> r.error == "commit refused"
    {
      if saved.None? || !commits {
        return Failure("commit refused");
      }
      saved := None;
      r := Success(());
    }

    method Rollback() returns (r: Result<(), string>)
      modifies this
      ensures r.Success? == old(saved).Some? && saved == None
      ensures data == if old(saved).Some? then old(saved).value else old(data)
    {
      if saved.None? {
        return Failure("cannot rollback - no transaction is active");
      }
      data, saved := saved.value, None;
      r := Success(());
    }

    method Run(sql: string) returns (r: Result<R, string>)
      modifies this
      ensures (Store(data, saved), r) == RunOne(engine, sql, old(Store(data, saved)))
    {
      match engine(sql, data)
      case Done(d, x) =>
        data, r := d, Success(x);
      case Refused(error) =>
        r := Failure(error);
      case RolledBack(error) =>
        if saved.Some? {
          data, saved := saved.value, None;
        }
        r := Failure(error);
    }

    /** `batch` while it holds the lock. Inside an open transaction its BEGIN is refused and nothing is undone. */
    method RunBatch(stmts: seq<string>, commits: bool) returns (r: Result<seq<R>, string>)
      modifies this
      ensures old(saved).Some? ==> r.Failure? && saved == old(saved) && data == old(data)
      ensures old(saved).None? ==> saved == None && After(data, r) == BatchAfter(engine, stmts, commits, old(data))
    {
      var results: seq<R> := [];
      var _ :- Begin();
      var error := None;
      var i := 0;
      while i < |stmts| && error.None?
        invariant i <= |stmts|
        invariant error.None? ==>
                  saved == Some(old(data)) && RunFirst(engine, stmts, i, old(data)) == Ran(data, results)
        invariant error.Some? ==> RunFirst(engine, stmts, i, old(data)) == Stopped(error.value)
        invariant error.Some? ==> if saved.Some? then saved.value == old(data) else data == old(data)
      {
        var one := Run(stmts[i]);
        if one.Success? {
          results := results + [one.value];
        } else {
          error := Some(one.error);
        }
        i := i + 1;
      }
      if error.None? {
        var committed := Commit(commits);
        if committed.Success? {
          return Success(results);
        }
        error := Some(committed.error);
      } else {
        StopStays(engine, stmts, i, |stmts|, old(data));
      }
      // A failed ROLLBACK means SQLite has already rolled back; the first error is the one reported.
      var undone := Rollback();
      r := Failure(error.value);
    }

    /** `exec`, and a single statement as a list of one, while it holds the lock. */
    method RunExec(stmts: seq<string>) returns (r: Result<seq<R>, string>)
      requires saved == None
      modifies this
      ensures saved == None && After(data, r) == ExecAfter(engine, stmts, [], old(data))
    {
      var results: seq<R> := [];
      var i := 0;
      assert stmts[0..] == stmts;
      while i < |stmts|
        invariant i <= |stmts| && saved == None
        invariant ExecAfter(engine, stmts, [], old(data)) == ExecAfter(engine, stmts[i..], results, data)
      {
        var one := Run(stmts[i]);
        if one.Failure? {
          return Failure(one.error);
        }
        assert stmts[i..][1..] == stmts[i + 1..];
        results, i := results + [one.value], i + 1;
      }
      r := Success(results);
    }
  }

  lemma {:induction false} StopStays<D, R>(engine: Engine<D, R>, stmts: seq<string>, k: nat, m: nat, d: D)
    requires k <= m <= |stmts| && RunFirst(engine, stmts, k, d).Stopped?
    ensures RunFirst(engine, stmts, m, d) == RunFirst(engine, stmts, k, d)
    decreases m - k
  {
    if k < m {
      StopStays(engine, stmts, k, m - 1, d);
    }
  }

  /** What a failed `exec` leaves behind is exactly the effect of the statements before the refused one. */
  lemma {:induction false} ExecKeepsPrefix<D, R>(engine: Engine<D, R>, stmts: seq<string>, results: seq<R>, d: D)
    returns (k: nat)
    ensures k <= |stmts|
    ensures ExecAfter(engine, stmts, results, d).data == ExecAfter(engine, stmts[..k], results, d).data
    ensures ExecAfter(engine, stmts[..k], results, d).outcome.Success?
    ensures ExecAfter(engine, stmts, results, d).outcome.Success? <==> k == |stmts|
    ensures k < |stmts| ==> !engine(stmts[k], ExecAfter(engine, stmts, results, d).data).Done?
  {
    if stmts == [] {
      k := 0;
    } else {
      match engine(stmts[0], d)
      case Done(data, result) =>
        var j := ExecKeepsPrefix(engine, stmts[1..], results + [result], data);
        k := j + 1;
        assert stmts[..k][1..] == stmts[1..][..j];
      case _ =>
        k := 0;
    }
  }

  /** A batch is `exec` of the same statements when they all succeed and COMMIT is accepted; otherwise it contributes
      nothing, and the error is that of the refused statement or of COMMIT. */
  lemma {:induction false} BatchIsExecOrNothing<D, R>(engine: Engine<D, R>, stmts: seq<string>, commits: bool, d: D)
    ensures var ran := ExecAfter(engine, stmts, [], d);
            BatchAfter(engine, stmts, commits, d) ==
            if ran.outcome.Failure? then After(d, ran.outcome)
            else if commits then ran else After(d, Failure("commit refused"))
  {
    assert stmts[0..] == stmts;
    RestOfBatch(engine, stmts, 0, d);
  }

  lemma {:induction false} RestOfBatch<D, R>(engine: Engine<D, R>, stmts: seq<string>, k: nat, d: D)
    requires k <= |stmts| && RunFirst(engine, stmts, k, d).Ran?
    ensures var ran := RunFirst(engine, stmts, k, d);
            var after := ExecAfter(engine, stmts[k..], ran.results, ran.data);
            match RunFirst(engine, stmts, |stmts|, d)
            case Ran(data, results) => after == After(data, Success(results))
            case Stopped(error) => after.outcome == Failure(error)
    decreases |stmts| - k
  {
    if k < |stmts| {
      assert stmts[k..][0] == stmts[k] && stmts[k..][1..] == stmts[k + 1..];
      if RunFirst(engine, stmts, k + 1, d).Ran? {
        RestOfBatch(engine, stmts, k + 1, d);
      } else {
        StopStays(engine, stmts, k + 1, |stmts|, d);
      }
    }
  }

  // ---- What statements do, one after another ----

  /** The databases `data` are those before and between the first statements of the list, and after them; each has
      succeeded with its result. */
  ghost predicate Course<D, R>(engine: Engine<D, R>, stmts: seq<string>, data: seq<D>, results: seq<R>) {
    && |data| == |results| + 1 && |results| <= |stmts|
    && forall i :: 0 <= i < |results| ==> engine(stmts[i], data[i]) == Done(data[i + 1], results[i])
  }

  /** The engine refuses the statement, whether or not it also rolls back. */
  ghost predicate Refuses<D, R>(engine: Engine<D, R>, sql: string, d: D, error: string) {
    engine(sql, d) == Refused(error) || engine(sql, d) == RolledBack(error)
  }

  /** `exec` runs the statements in order up to the first that is refused, each on what the one before has left; it
      answers with all their results, or with that error. */
  lemma ExecCourse<D, R>(engine: Engine<D, R>, stmts: seq<string>, d: D) returns (data: seq<D>, results: seq<R>)
    ensures Course(engine, stmts, data, results) && data[0] == d
    ensures var after := ExecAfter(engine, stmts, [], d);
            after.data == data[|results|]
            && if |results| == |stmts| then after.outcome == Success(results)
               else after.outcome.Failure? && Refuses(engine, stmts[|results|], after.data, after.outcome.error)
  {
    data, results := CourseFrom(engine, stmts, [], d);
    assert [] + results == results;
  }

  lemma {:induction false} CourseFrom<D, R>(engine: Engine<D, R>, stmts: seq<string>, before: seq<R>, d: D)
    returns (data: seq<D>, results: seq<R>)
    ensures Course(engine, stmts, data, results) && data[0] == d
    ensures var after := ExecAfter(engine, stmts, before, d);
            after.data == data[|results|]
            && if |results| == |stmts| then after.outcome == Success(before + results)
               else after.outcome.Failure? && Refuses(engine, stmts[|results|], after.data, after.outcome.error)
  {
    data, results := [d], [];
    assert before + [] == before;
    if stmts != [] && engine(stmts[0], d).Done? {
      var Done(next, result) := engine(stmts[0], d);
      data, results := CourseFrom(engine, stmts[1..], before + [result], next);
      assert before + [result] + results == before + ([result] + results);
      data, results := [d] + data, [result] + results;
    }
  }

  /** A single statement, whichever of the four it comes from, does what the engine does. */
  lemma SingleIs<D, R>(engine: Engine<D, R>, sql: string, d: D)
    ensures CallAfter(engine, Single(sql), d) ==
            match engine(sql, d)
            case Done(data, result) => After(data, Success([result]))
            case Refused(error) => After(d, Failure(error))
            case RolledBack(error) => After(d, Failure(error))
    ensures Statements(Single(sql)) == [sql]
  {
    var one := [sql];
    assert one[0] == sql && one[1..] == [];
    if engine(sql, d).Done? {
      var Done(data, result) := engine(sql, d);
      assert [] + [result] == [result];
      assert ExecAfter(engine, one, [], d) == ExecAfter(engine, one[1..], [] + [result], data);
    }
  }
}

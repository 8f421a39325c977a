/** Running one statement in a transaction: cancellation checks, chunked fetching, commit or
    rollback. */
module QueryRun {
  import opened Wrappers
  import opened Text
  import opened Parameters
  import opened Pagination
  import opened PaginationTheorems
  import Validation

  /** What the database answers to a statement. */
  datatype Answer<R> = Rows(rows: seq<R>, rowCount: int) | NoRows(rowCount: int) | DatabaseError

  /** The effects of a run, in order. A cancellation check records what it saw. */
  datatype Action =
    | Check(canceled: bool)
    | Execute(text: string, given: map<string, Value>)
    | Fetch(count: nat)
    | Commit
    | Rollback

  datatype Failure = InvalidStatement(error: Validation.Error) | InvalidOptions(option: OptionError) | Canceled | Broken

  datatype Output<R> = Output(rows: seq<R>, affected: int, statementType: string)

  function Max(a: int, b: int): int {
    if a < b then b else a
  }

  /** Fetches chunk by chunk until nothing comes or `maxRows` is reached, checking for cancellation
      before every chunk. `canceled(k)` is the answer to the check number `k`. */
  method FetchRows<R>(available: seq<R>, maxRows: nat, chunkSize: nat, canceled: nat -> bool, checks: nat)
    returns (rows: seq<R>, stopped: bool, trace: seq<Action>)
    requires chunkSize > 0
    ensures !stopped ==> rows == available[..Min(maxRows, |available|)]
    ensures stopped ==> trace != [] && trace[|trace| - 1] == Check(true)
    ensures Check(true) in trace ==> stopped
    ensures forall a | a in trace :: a.Check? || a.Fetch?
  {
    rows, stopped, trace := [], false, [];
    var asked := checks;
    while |rows| < maxRows
      invariant |rows| <= |available| && rows == available[..|rows|] && |rows| <= maxRows
      invariant !stopped && Check(true) !in trace
      invariant forall a | a in trace :: a.Check? || a.Fetch?
      decreases maxRows - |rows|
    {
      trace := trace + [Check(canceled(asked))];
      asked := asked + 1;
      if canceled(asked - 1) {
        stopped := true;
        return;
      }
      var wanted := Min(chunkSize, maxRows - |rows|);
      var chunk := available[|rows|..Min(|rows| + wanted, |available|)];
      trace := trace + [Fetch(|chunk|)];
      if chunk == [] {
        break;
      }
      rows := rows + chunk;
    }
  }

  /** How a transaction may end: it commits exactly for a successful write that is not a trial run,
      with nothing between the last cancellation check and the commit; every other run ends with a
      rollback; and a check that sees the cancellation ends the run. */
  ghost predicate Disciplined<R>(
    trace: seq<Action>, r: Result<Output<R>, Failure>, httpMethod: string, rollback: bool)
  {
    && trace != [] && trace[0].Check?
    && (Commit in trace <==> r.Ok? && httpMethod != "GET" && !rollback)
    && (Commit in trace ==> |trace| > 1 && trace[|trace| - 2..] == [Check(false), Commit])
    && (Commit !in trace ==> trace[|trace| - 1] == Rollback)
    && (Check(true) in trace <==> r == Err(Canceled))
    && (r.Err? ==> r.error == Canceled || r.error == Broken)
  }

  /** After the first check the statement is executed, once, or nothing is. */
  ghost predicate ExecutesOnce(trace: seq<Action>, text: string, given: map<string, Value>) {
    forall i :: 0 <= i < |trace| && trace[i].Execute? ==> i == 1 && trace[i] == Execute(text, given)
  }

  lemma StillOnce(trace: seq<Action>, more: seq<Action>, text: string, given: map<string, Value>)
    requires ExecutesOnce(trace, text, given) && forall a | a in more :: !a.Execute?
    ensures ExecutesOnce(trace + more, text, given)
  {
    assert forall k :: 0 <= k < |more| ==> more[k] in more;
  }

  /** The rows of the answer up to the hard maximum, whatever the chunk size. */
  ghost predicate Delivers<R>(
    output: Output<R>, answer: Answer<R>, httpMethod: string, statementType: string, maxRows: nat)
  {
    && !answer.DatabaseError? && output.statementType == statementType
    && output.rows == (if answer.Rows? then answer.rows[..Min(maxRows, |answer.rows|)] else [])
    && output.affected == Affected(answer, httpMethod, statementType, |output.rows|)
  }

  /** A run in progress: nothing committed, no cancellation seen. */
  predicate Underway(trace: seq<Action>) {
    trace != [] && trace[0].Check? && Commit !in trace && Check(true) !in trace
  }

  lemma GoesOn(trace: seq<Action>, more: seq<Action>)
    requires Underway(trace) && Commit !in more && Check(true) !in more
    ensures Underway(trace + more)
  {
  }

  lemma EndsCanceled<R>(trace: seq<Action>, httpMethod: string, rollback: bool)
    requires trace != [] && trace[0].Check? && Commit !in trace && Check(true) in trace
    ensures Disciplined<R>(trace + [Rollback], Err(Canceled), httpMethod, rollback)
  {
    assert (trace + [Rollback])[0] == trace[0] && (trace + [Rollback])[|trace|] == Rollback;
  }

  lemma EndsRolledBack<R>(
    trace: seq<Action>, r: Result<Output<R>, Failure>, httpMethod: string, rollback: bool)
    requires Underway(trace) && (r == Err(Broken) || (r.Ok? && (httpMethod == "GET" || rollback)))
    ensures Disciplined(trace + [Rollback], r, httpMethod, rollback)
  {
    assert (trace + [Rollback])[0] == trace[0] && (trace + [Rollback])[|trace|] == Rollback;
  }

  lemma EndsCommitted<R>(trace: seq<Action>, output: Output<R>, httpMethod: string, rollback: bool)
    requires Underway(trace) && httpMethod != "GET" && !rollback
    ensures Disciplined(trace + [Check(false)] + [Commit], Ok(output), httpMethod, rollback)
  {
    var all := trace + [Check(false)] + [Commit];
    assert all[0] == trace[0] && all[|all| - 2..] == [Check(false), Commit];
    assert Commit in all;
  }

  /** The transaction of one execution. `commits` tells whether the database accepts the commit. */
  method RunInTransaction<R>(
    text: string, given: map<string, Value>, statementType: string, httpMethod: string,
    maxRows: nat, chunkSize: nat, rollback: bool, answer: Answer<R>, commits: bool, canceled: nat -> bool
  ) returns (r: Result<Output<R>, Failure>, trace: seq<Action>)
    requires chunkSize > 0
    ensures Disciplined(trace, r, httpMethod, rollback)
    ensures r.Ok? ==> Delivers(r.value, answer, httpMethod, statementType, maxRows)
    ensures ExecutesOnce(trace, text, given)
    ensures r.Ok? ==> Execute(text, given) in trace
  {
    trace := [Check(canceled(0))];
    if canceled(0) {
      EndsCanceled<R>(trace, httpMethod, rollback);
      return Err(Canceled), trace + [Rollback];
    }
    trace := trace + [Execute(text, given)];
    if answer.DatabaseError? {
      EndsRolledBack<R>(trace, Err(Broken), httpMethod, rollback);
      return Err(Broken), trace + [Rollback];
    }
    var rows: seq<R> := [];
    if answer.Rows? {
      var stopped, fetched;
      rows, stopped, fetched := FetchRows(answer.rows, maxRows, chunkSize, canceled, 1);
      if stopped {
        StillOnce(trace, fetched, text, given);
        EndsCanceled<R>(trace + fetched, httpMethod, rollback);
        return Err(Canceled), trace + fetched + [Rollback];
      }
      GoesOn(trace, fetched);
      StillOnce(trace, fetched, text, given);
      trace := trace + fetched;
    }
    var affected := Max(0, answer.rowCount);
    if httpMethod != "GET" && statementType != "procedure" && answer.Rows? {
      affected := Max(affected, |rows|);
    }
    r := Ok(Output(rows, affected, statementType));
    if httpMethod == "GET" || rollback {
      EndsRolledBack(trace, r, httpMethod, rollback);
      return r, trace + [Rollback];
    }
    var last := canceled(|trace|);
    if last {
      EndsCanceled<R>(trace + [Check(true)], httpMethod, rollback);
      return Err(Canceled), trace + [Check(true)] + [Rollback];
    }
    if !commits {
      GoesOn(trace, [Check(false)]);
      EndsRolledBack<R>(trace + [Check(false)], Err(Broken), httpMethod, rollback);
      return Err(Broken), trace + [Check(false)] + [Rollback];
    }
    EndsCommitted(trace, r.value, httpMethod, rollback);
    return r, trace + [Check(false)] + [Commit];
  }

  function Affected<R>(answer: Answer<R>, httpMethod: string, statementType: string, fetched: nat): int
    requires !answer.DatabaseError?
  {
    if httpMethod != "GET" && statementType != "procedure" && answer.Rows?
    then Max(Max(0, answer.rowCount), fetched) else Max(0, answer.rowCount)
  }

  /** The count reported is that of the driver, never negative; only a write that returns rows, and is no
      procedure call, reports at least the rows fetched. */
  lemma AffectedCounts<R>(answer: Answer<R>, httpMethod: string, statementType: string, fetched: nat)
    requires !answer.DatabaseError?
    ensures var n := Affected(answer, httpMethod, statementType, fetched);
            && 0 <= n && answer.rowCount <= n && (n == 0 || n == answer.rowCount || n == fetched)
            && (if httpMethod != "GET" && statementType != "procedure" && answer.Rows? then fetched <= n
                else n == 0 || n == answer.rowCount)
  {
  }

  /** What is sent to the database, or why nothing is. */
  function Prepared(
    runtime: Runtime, sql: string, params: map<string, Value>, httpMethod: string, options: Options, maxRows: nat
  ): Result<(string, map<string, Value>, string), Failure>
  {
    match Validation.Validate(sql, httpMethod)
    case Invalid(e) => Err(InvalidStatement(e))
    case Valid(statementType) =>
      if httpMethod != "GET" then Ok((sql, ExecutionBindings(sql, params), statementType))
      else
        match ApplyOptions(runtime, sql, params, options, maxRows)
        case Err(e) => Err(InvalidOptions(e))
        case Ok((text, binds)) => Ok((text, ExecutionBindings(text, binds), statementType))
  }

  method Prepare(
    runtime: Runtime, sql: string, params: map<string, Value>, httpMethod: string, options: Options, maxRows: nat
  ) returns (r: Result<(string, map<string, Value>, string), Failure>)
    ensures r == Prepared(runtime, sql, params, httpMethod, options, maxRows)
  {
    var verdict := Validation.ValidateQuery(sql, httpMethod);
    if verdict.Invalid? {
      return Err(InvalidStatement(verdict.error));
    }
    var text, binds := sql, params;
    if httpMethod == "GET" {
      var rewritten := ApplyOptions(runtime, sql, params, options, maxRows);
      if rewritten.Err? {
        return Err(InvalidOptions(rewritten.error));
      }
      text, binds := rewritten.value.0, rewritten.value.1;
    }
    var given := CollectBindings(text, binds);
    return Ok((text, given, verdict.statementType));
  }

  /** One execution. The database sees nothing but the prepared statement, and nothing at all when
      preparing it fails. */
  method ExecuteQuery<R>(
    runtime: Runtime, sql: string, params: map<string, Value>, httpMethod: string, options: Options,
    maxRows: nat, chunkSize: nat, rollback: bool, answer: Answer<R>, commits: bool, canceled: nat -> bool
  ) returns (r: Result<Output<R>, Failure>, trace: seq<Action>)
    requires chunkSize > 0
    ensures match Prepared(runtime, sql, params, httpMethod, options, maxRows)
            case Err(e) => r == Err(e) && trace == []
            case Ok((text, given, statementType)) =>
              && Disciplined(trace, r, httpMethod, rollback)
              && (r.Ok? ==> Delivers(r.value, answer, httpMethod, statementType, maxRows))
              && ExecutesOnce(trace, text, given) && (r.Ok? ==> Execute(text, given) in trace)
    ensures forall a | a in trace && a.Execute? :: Validation.Validate(sql, httpMethod).Valid?
    ensures httpMethod != "GET" ==>
              forall a | a in trace && a.Execute? :: a == Execute(sql, ExecutionBindings(sql, params))
  {
    var prepared := Prepare(runtime, sql, params, httpMethod, options, maxRows);
    if prepared.Err? {
      return Err(prepared.error), [];
    }
    var (text, given, statementType) := prepared.value;
    r, trace := RunInTransaction(text, given, statementType, httpMethod, maxRows, chunkSize, rollback,
                                 answer, commits, canceled);
  }
}

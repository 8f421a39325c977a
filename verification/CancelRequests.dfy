/** What a request to cancel achieves: exactly when its status stays visible, and exactly when it bars
    the commit. */
module CancelRequests {
  import opened Wrappers
  import opened History
  import opened Execution
  import opened ExecutionInvariant
  import opened ExecutionProgress
  import ExecutionRaces
  import ExecutionService

  // ----- the status

  predicate IsAsked(s: State, id: Id) {
    id in s.history && s.history[id].status == CancelRequested
  }

  /** The record still shows the request, or a final status, or is gone. */
  predicate Stands(s: State, id: Id) {
    id in s.history ==> s.history[id].status == CancelRequested || s.history[id].status.Terminal()
  }

  predicate PastAdmission(t: Task) {
    t !in {Inserted, Registered, HoldsGlobal, Admitted}
  }

  lemma OwnStep(cfg: Config, s: State, id: Id, a: Action)
    requires id in s.execs && IsAsked(s, id) && Ready(s.execs[id], a) && Possible(cfg, s, id, a)
    ensures var t := Step(cfg, s, id, a);
            id in t.history ==> (t.history[id].status == Running <==> a == MarkRunning)
  {
    var e := s.execs[id];
    match WriteOf(e, a)
    case None =>
    case Some(w) => ApplyIsMonotone(s.history, id, w, s.now, cfg.historySize, OrderOf(a));
  }

  lemma OthersStep(cfg: Config, s: State, id: Id, k: Id, a: Action)
    requires k in s.execs && k != id && IsAsked(s, id) && Ready(s.execs[k], a) && Possible(cfg, s, k, a)
    ensures var t := Step(cfg, s, k, a);
            id in t.history ==> t.history[id] == s.history[id]
  {
    match WriteOf(s.execs[k], a)
    case None =>
    case Some(w) => ApplyIsMonotone(s.history, k, w, s.now, cfg.historySize, OrderOf(a));
  }

  /** One event turns a recorded request into `running` exactly when it is the admitted execution's own
      step to running. */
  lemma OnlyMarkRunningOverwrites(cfg: Config, s: State, ev: Event, id: Id)
    requires id in s.execs && IsAsked(s, id)
    ensures var t := Next(cfg, s, ev);
            id in t.history ==>
              (t.history[id].status == Running <==> ev == Act(id, MarkRunning) && s.execs[id].task == Admitted)
  {
    if ev.Act? && Enabled(cfg, s, ev) {
      if ev.id == id {
        OwnStep(cfg, s, id, ev.action);
      } else {
        OthersStep(cfg, s, id, ev.id, ev.action);
      }
    }
  }

  // ----- the status, over runs

  predicate Stays(s: State, id: Id) {
    id in s.execs && PastAdmission(s.execs[id].task) && Stands(s, id)
  }

  lemma MovedPastAdmission(e: Exec, a: Action)
    requires PastAdmission(e.task) && Ready(e, a)
    ensures PastAdmission(Moved(e, a).task)
  {
  }

  /** Past the admission only final statuses and requests to cancel are written. */
  lemma WritesPastAdmission(e: Exec, a: Action)
    requires PastAdmission(e.task) && Ready(e, a) && WriteOf(e, a).Some?
    ensures WriteOf(e, a).value.status == CancelRequested || WriteOf(e, a).value.status.Terminal()
  {
  }

  lemma StepStays(cfg: Config, s: State, id: Id, k: Id, a: Action)
    requires Stays(s, id) && k in s.execs && Ready(s.execs[k], a) && Possible(cfg, s, k, a)
    ensures Stays(Step(cfg, s, k, a), id)
  {
    var e := s.execs[k];
    if k == id {
      MovedPastAdmission(e, a);
      if WriteOf(e, a).Some? {
        WritesPastAdmission(e, a);
      }
    }
    match WriteOf(e, a)
    case None =>
    case Some(w) => ApplyIsMonotone(s.history, k, w, s.now, cfg.historySize, OrderOf(a));
  }

  /** Past the admission a recorded request is only ever replaced by a final status, over every run. */
  lemma {:induction false} StaysOverRuns(cfg: Config, s: State, id: Id, events: seq<Event>)
    requires Stays(s, id)
    ensures Stays(Run(cfg, s, events), id)
    decreases |events|
  {
    if events != [] {
      var ev := events[0];
      if ev.Act? && Enabled(cfg, s, ev) {
        StepStays(cfg, s, id, ev.id, ev.action);
      }
      StaysOverRuns(cfg, Next(cfg, s, ev), id, events[1..]);
    }
  }

  // ----- runs that hide the request

  /** The permits an execution still needs for its admission are free. */
  predicate CanBeAdmitted(cfg: Config, s: State, id: Id)
    requires id in s.execs
  {
    var e := s.execs[id];
    && (e.task in {Inserted, Registered} ==> s.globalFree > 0)
    && (e.task in {Inserted, Registered, HoldsGlobal} ==> Free(cfg, s, e.owner) > 0)
  }

  lemma HiddenWhenAdmitted(cfg: Config, s: State, id: Id) returns (events: seq<Event>)
    requires id in s.execs && s.execs[id].task == Admitted && IsAsked(s, id)
    ensures var t := Run(cfg, s, events); id in t.history && t.history[id].status == Running
  {
    events := [Act(id, MarkRunning)] + [];
    ExecutionRaces.RunOne(cfg, s, Act(id, MarkRunning), []);
    ExecutionRaces.WritingNext(cfg, s, id, MarkRunning);
  }

  lemma PermitStep(cfg: Config, s: State, id: Id, a: Action)
    requires id in s.execs && a in {Register, AcquireGlobal, AcquireOwner} && Ready(s.execs[id], a)
    requires (a == AcquireGlobal ==> s.globalFree > 0) && (a == AcquireOwner ==> Free(cfg, s, s.execs[id].owner) > 0)
    ensures var t := Next(cfg, s, Act(id, a));
            && t.execs == s.execs[id := Moved(s.execs[id], a)] && t.history == s.history
            && (a == Register ==> t.globalFree == s.globalFree)
            && (a != AcquireOwner ==> Free(cfg, t, s.execs[id].owner) == Free(cfg, s, s.execs[id].owner))
  {
    assert WriteOf(s.execs[id], a).None?;
    assert Enabled(cfg, s, Act(id, a));
  }

  lemma HiddenWhenHolding(cfg: Config, s: State, id: Id) returns (events: seq<Event>)
    requires id in s.execs && s.execs[id].task == HoldsGlobal && IsAsked(s, id) && CanBeAdmitted(cfg, s, id)
    ensures var t := Run(cfg, s, events); id in t.history && t.history[id].status == Running
  {
    PermitStep(cfg, s, id, AcquireOwner);
    var rest := HiddenWhenAdmitted(cfg, Next(cfg, s, Act(id, AcquireOwner)), id);
    events := [Act(id, AcquireOwner)] + rest;
    ExecutionRaces.RunOne(cfg, s, Act(id, AcquireOwner), rest);
  }

  lemma HiddenWhenRegistered(cfg: Config, s: State, id: Id) returns (events: seq<Event>)
    requires id in s.execs && s.execs[id].task == Registered && IsAsked(s, id) && CanBeAdmitted(cfg, s, id)
    ensures var t := Run(cfg, s, events); id in t.history && t.history[id].status == Running
  {
    PermitStep(cfg, s, id, AcquireGlobal);
    var rest := HiddenWhenHolding(cfg, Next(cfg, s, Act(id, AcquireGlobal)), id);
    events := [Act(id, AcquireGlobal)] + rest;
    ExecutionRaces.RunOne(cfg, s, Act(id, AcquireGlobal), rest);
  }

  lemma {:induction false} HiddenWhenInserted(cfg: Config, s: State, id: Id) returns (events: seq<Event>)
    requires id in s.execs && s.execs[id].task == Inserted && IsAsked(s, id) && CanBeAdmitted(cfg, s, id)
    ensures var t := Run(cfg, s, events); id in t.history && t.history[id].status == Running
  {
    PermitStep(cfg, s, id, Register);
    var rest := HiddenWhenRegistered(cfg, Next(cfg, s, Act(id, Register)), id);
    events := [Act(id, Register)] + rest;
    ExecutionRaces.RunOne(cfg, s, Act(id, Register), rest);
  }

  /** From every position up to the admission, once the permits are free, some run hides the request. */
  lemma {:induction false} RunHidesRequest(cfg: Config, s: State, id: Id) returns (events: seq<Event>)
    requires id in s.execs && IsAsked(s, id) && !PastAdmission(s.execs[id].task) && CanBeAdmitted(cfg, s, id)
    ensures var t := Run(cfg, s, events); id in t.history && t.history[id].status == Running
  {
    match s.execs[id].task
    case Inserted => events := HiddenWhenInserted(cfg, s, id);
    case Registered => events := HiddenWhenRegistered(cfg, s, id);
    case HoldsGlobal => events := HiddenWhenHolding(cfg, s, id);
    case Admitted => events := HiddenWhenAdmitted(cfg, s, id);
  }

  /** From every state the other executions can make room for its admission. */
  lemma RoomCanBeMade(cfg: Config, s: State, id: Id) returns (events: seq<Event>)
    requires cfg.Valid() && Inv(cfg, s) && id in s.execs && IsAsked(s, id) && !PastAdmission(s.execs[id].task)
    ensures var t := Run(cfg, s, events);
            id in t.execs && t.execs[id] == s.execs[id] && IsAsked(t, id) && CanBeAdmitted(cfg, t, id)
  {
    assert Local(s, id);
    events := Drain(cfg, s, {id});
    var t := Run(cfg, s, events);
    assert Spares(s, t, id);
    AloneIsEnabled(cfg, t, id);
  }

  /** Main result. From every reachable state with a recorded request to cancel: it stays visible over
      every run, until a final status or a purge, exactly when the execution is past its admission. */
  lemma RequestSurvivesIff(cfg: Config, s: State, id: Id)
    requires cfg.Valid() && Inv(cfg, s) && id in s.execs && IsAsked(s, id)
    ensures (forall events :: Stands(Run(cfg, s, events), id)) <==> PastAdmission(s.execs[id].task)
  {
    if PastAdmission(s.execs[id].task) {
      forall events ensures Stands(Run(cfg, s, events), id) {
        StaysOverRuns(cfg, s, id, events);
      }
    } else {
      var room := RoomCanBeMade(cfg, s, id);
      var hiding := RunHidesRequest(cfg, Run(cfg, s, room), id);
      RunAppend(cfg, s, room, hiding);
      assert !Stands(Run(cfg, s, room + hiding), id);
    }
  }

  // ----- the commit

  /** The execution once a request to cancel it has been acknowledged. */
  function Asked(e: Exec): Exec {
    if e.task == Inserted then e else e.(canceled := true)
  }

  lemma AskedCanCommit(e: Exec)
    requires Coherent(e) && CommitsRight(e)
    ensures CanCommit(Asked(e)) <==> e.writes && (e.task == Inserted || e.committed || e.job == Passed)
  {
  }

  /** The state after an acknowledged request. */
  lemma AfterRequest(cfg: Config, s: State, id: Id) returns (t: State)
    requires cfg.Valid() && Inv(cfg, s) && id in s.execs && id in s.history && !s.history[id].status.Terminal()
    ensures t == Run(cfg, s, [Act(id, Cancel), Act(id, RecordCancel)])
    ensures Inv(cfg, t) && IsAsked(t, id) && id in t.execs && t.execs[id] == Asked(s.execs[id])
  {
    ExecutionService.CancelSteps(cfg, s, id);
    t := Run(cfg, s, [Act(id, Cancel), Act(id, RecordCancel)]);
    RunKeeps(cfg, s, [Act(id, Cancel), Act(id, RecordCancel)]);
  }

  /** Main result. A request that is acknowledged keeps the execution from ever committing if and only
      if the execution does not write, or it is registered and its worker has neither committed nor
      passed the last check. */
  lemma AcknowledgedBarsIff(cfg: Config, s: State, id: Id)
    requires cfg.Valid() && Inv(cfg, s) && id in s.execs && id in s.history && !s.history[id].status.Terminal()
    ensures var e := s.execs[id];
            Safe(cfg, Run(cfg, s, [Act(id, Cancel), Act(id, RecordCancel)]), id)
            <==> !e.writes || (e.task != Inserted && !e.committed && e.job != Passed)
  {
    assert Local(s, id);
    var t := AfterRequest(cfg, s, id);
    AskedCanCommit(s.execs[id]);
    CommitPossibleIff(cfg, t, id);
  }

  /** From every reachable state: a new write is asked to cancel before its context is known, the request
      is acknowledged and recorded, and the write commits all the same. */
  lemma EarlyRequestIsLost(cfg: Config, s: State, id: Id, owner: Owner) returns (later: seq<Event>)
    requires cfg.Valid() && Inv(cfg, s) && id !in s.execs
    ensures var t := Run(cfg, Next(cfg, s, Insert(id, owner, true)), [Act(id, Cancel), Act(id, RecordCancel)]);
            IsAsked(t, id) && NoInsert(later) && Committed(Run(cfg, t, later), id)
  {
    var inserted := Next(cfg, s, Insert(id, owner, true));
    NextKeeps(cfg, s, Insert(id, owner, true));
    assert Local(inserted, id);
    var t := AfterRequest(cfg, inserted, id);
    AskedCanCommit(inserted.execs[id]);
    later := CommitsAfterAll(cfg, t, id);
  }
}

/** What can still happen: from every state all permits can be given back, and it is known exactly which
    executions can still commit. */
module ExecutionProgress {
  import opened Wrappers
  import opened History
  import opened Execution
  import opened ExecutionInvariant
  import ExecutionRaces

  // ----- steps of one execution

  ghost predicate NoInsert(events: seq<Event>) {
    forall ev | ev in events :: !ev.Insert?
  }

  /** What is known of an execution does not change, unless its record is finished. */
  predicate Spares(s: State, t: State, id: Id) {
    && (id in s.execs ==> id in t.execs && t.execs[id] == s.execs[id])
    && (id in s.history && !s.history[id].status.Terminal() ==> id in t.history && t.history[id] == s.history[id])
  }

  /** Nothing changes but one execution and finished records. */
  ghost predicate OnlyMoves(s: State, t: State, id: Id) {
    t.execs.Keys == s.execs.Keys && forall k | k != id :: Spares(s, t, k)
  }

  lemma ActMoves(cfg: Config, s: State, id: Id, a: Action)
    requires cfg.Valid() && Inv(cfg, s) && Enabled(cfg, s, Act(id, a))
    ensures var t := Next(cfg, s, Act(id, a));
            Inv(cfg, t) && t.execs == s.execs[id := Moved(s.execs[id], a)] && OnlyMoves(s, t, id)
  {
    NextKeeps(cfg, s, Act(id, a));
    StepOnlyMoves(cfg, s, id, a);
  }

  lemma StepOnlyMoves(cfg: Config, s: State, id: Id, a: Action)
    requires id in s.execs && Possible(cfg, s, id, a) && |Terminals(s.history)| <= cfg.historySize
    ensures OnlyMoves(s, Step(cfg, s, id, a), id)
  {
    StepKeepsHistory(cfg, s, id, a);
  }

  lemma MovesAfter(s: State, t: State, u: State, id: Id)
    requires OnlyMoves(s, t, id) && OnlyMoves(t, u, id)
    ensures OnlyMoves(s, u, id)
  {
    forall k | k != id ensures Spares(s, u, k) {
      assert Spares(s, t, k) && Spares(t, u, k);
    }
  }

  /** One enabled event in front of a run. */
  lemma RunFirst(cfg: Config, s: State, ev: Event, rest: seq<Event>) returns (events: seq<Event>)
    requires NoInsert(rest) && !ev.Insert?
    ensures Run(cfg, s, events) == Run(cfg, Next(cfg, s, ev), rest) && NoInsert(events)
  {
    events := [ev] + rest;
    ExecutionRaces.RunOne(cfg, s, ev, rest);
  }

  // ----- giving everything back

  /** It holds no permit and no thread. */
  predicate Idle(e: Exec) {
    !e.slots && e.task != HoldsGlobal && !OnThread(e)
  }

  /** Its worker has not started yet, but will. */
  predicate ToStart(e: Exec) {
    e.task == Admitted || e.task == Marked || e.job == Pending
  }

  /** How many steps are left until the execution is idle. */
  function StepsDown(e: Exec): nat {
    if e.task == HoldsGlobal then 1
    else if e.task == Admitted then 8
    else if e.task == Marked then 7
    else
      match e.job
      case Absent => 0
      case Pending => 6
      case Finished(_) => 4
      case Recorded(_) => 3
      case Popped(_) => 2
      case Done(_) => if e.slots then 1 else 0
      case _ => 5
  }

  function DownAction(e: Exec, order: seq<Id>): Action {
    if e.task == HoldsGlobal then OwnerTimeout
    else if e.task == Admitted then MarkRunning
    else if e.task == Marked then Submit
    else
      match e.job
      case Pending => Start
      case Finished(_) => RecordResult(order)
      case Recorded(_) => Pop
      case Popped(_) => Exit
      case Done(_) => Release
      case _ => Raise
  }

  lemma DownMoves(e: Exec, order: seq<Id>)
    requires Coherent(e) && StepsDown(e) > 0
    ensures var a := DownAction(e, order);
            && Ready(e, a) && StepsDown(Moved(e, a)) < StepsDown(e) && (ToStart(Moved(e, a)) ==> ToStart(e))
            && a != AcquireGlobal && a != AcquireOwner && (a == Start ==> ToStart(e))
            && (ToStart(Moved(e, a)) ==> !OnThread(e) && !OnThread(Moved(e, a)))
  {
  }

  lemma NoStepsIsIdle(e: Exec)
    requires Coherent(e) && StepsDown(e) == 0
    ensures Idle(e)
  {
  }

  /** The order a final status needs always exists. */
  lemma DownIsEnabled(cfg: Config, s: State, id: Id) returns (a: Action)
    requires id in s.execs && Coherent(s.execs[id]) && StepsDown(s.execs[id]) > 0
    requires ToStart(s.execs[id]) ==> |Those(s.execs, OnThread)| < cfg.Workers()
    ensures Enabled(cfg, s, Act(id, a)) && exists order :: a == DownAction(s.execs[id], order)
  {
    var e := s.execs[id];
    var order: seq<Id> := [];
    if e.job.Finished? && !ToStart(e) && e.task != HoldsGlobal {
      order := OrderExists(Update(s.history, id, WriteOf(e, RecordResult([])).value, s.now));
    }
    a := DownAction(e, order);
    DownMoves(e, order);
  }

  /** An execution gives back its permits and its thread, and no other one moves. */
  lemma SettleOne(cfg: Config, s: State, id: Id) returns (events: seq<Event>)
    requires cfg.Valid() && Inv(cfg, s) && id in s.execs
    requires ToStart(s.execs[id]) ==> |Those(s.execs, OnThread)| < cfg.Workers()
    ensures NoInsert(events)
    ensures var t := Run(cfg, s, events); Inv(cfg, t) && OnlyMoves(s, t, id) && Idle(t.execs[id])
    decreases StepsDown(s.execs[id])
  {
    var e := s.execs[id];
    assert Local(s, id);
    if StepsDown(e) == 0 {
      NoStepsIsIdle(e);
      events := [];
    } else {
      var a := DownIsEnabled(cfg, s, id);
      var order :| a == DownAction(e, order);
      DownMoves(e, order);
      ActMoves(cfg, s, id, a);
      var t := Next(cfg, s, Act(id, a));
      CountAfter(s.execs, id, Moved(e, a), OnThread);
      var rest := SettleOne(cfg, t, id);
      events := RunFirst(cfg, s, Act(id, a), rest);
      MovesAfter(s, t, Run(cfg, t, rest), id);
    }
  }

  /** The executions still to be settled, when some are spared. */
  function Busy(s: State, spared: set<Id>): set<Id> {
    set id | id in s.execs && id !in spared && !Idle(s.execs[id])
  }

  ghost predicate OffThread(s: State, spared: set<Id>) {
    forall k | k in spared && k in s.execs :: !OnThread(s.execs[k])
  }

  /** All executions but the spared ones are idle, and nothing is new. */
  ghost predicate Drained(s: State, t: State, spared: set<Id>) {
    t.execs.Keys == s.execs.Keys && Busy(t, spared) == {} && forall k | k in spared :: Spares(s, t, k)
  }

  /** Those on threads go first, so that there is always one for the next. */
  lemma PickBusy(cfg: Config, s: State, spared: set<Id>) returns (id: Id)
    requires Inv(cfg, s) && Busy(s, spared) != {} && OffThread(s, spared)
    ensures id in Busy(s, spared) && (ToStart(s.execs[id]) ==> |Those(s.execs, OnThread)| < cfg.Workers())
  {
    if k :| k in s.execs && OnThread(s.execs[k]) {
      id := k;
      assert Local(s, k);
    } else {
      id :| id in Busy(s, spared);
      assert Those(s.execs, OnThread) == {};
    }
  }

  lemma {:induction false} Drain(cfg: Config, s: State, spared: set<Id>) returns (events: seq<Event>)
    requires cfg.Valid() && Inv(cfg, s)
    requires OffThread(s, spared)
    ensures NoInsert(events) && Inv(cfg, Run(cfg, s, events)) && Drained(s, Run(cfg, s, events), spared)
    decreases Busy(s, spared)
  {
    events := [];
    if Busy(s, spared) == {} {
      assert Run(cfg, s, events) == s;
    } else {
      var id, first := DrainFirst(cfg, s, spared);
      var t := Run(cfg, s, first);
      var rest := Drain(cfg, t, spared);
      events := first + rest;
      RunAppend(cfg, s, first, rest);
      DrainedAfter(s, t, Run(cfg, t, rest), spared, id);
    }
  }

  lemma DrainFirst(cfg: Config, s: State, spared: set<Id>) returns (id: Id, events: seq<Event>)
    requires cfg.Valid() && Inv(cfg, s) && OffThread(s, spared) && Busy(s, spared) != {}
    ensures NoInsert(events) && id !in spared
    ensures var t := Run(cfg, s, events);
            Inv(cfg, t) && OnlyMoves(s, t, id) && OffThread(t, spared) && Busy(t, spared) < Busy(s, spared)
  {
    id := PickBusy(cfg, s, spared);
    events := SettleOne(cfg, s, id);
    BusyShrinks(s, Run(cfg, s, events), spared, id);
  }

  lemma BusyShrinks(s: State, t: State, spared: set<Id>, id: Id)
    requires OnlyMoves(s, t, id) && id in Busy(s, spared) && id in t.execs && Idle(t.execs[id])
    requires OffThread(s, spared)
    ensures Busy(t, spared) < Busy(s, spared) && OffThread(t, spared)
  {
    forall k | k in spared && k in t.execs ensures !OnThread(t.execs[k]) {
      assert k != id && Spares(s, t, k);
    }
    forall k | k in Busy(t, spared) ensures k in Busy(s, spared) {
      assert k != id && Spares(s, t, k);
    }
  }

  lemma DrainedAfter(s: State, t: State, u: State, spared: set<Id>, id: Id)
    requires OnlyMoves(s, t, id) && id !in spared && Drained(t, u, spared)
    ensures Drained(s, u, spared)
  {
    forall k | k in spared ensures Spares(s, u, k) {
      assert Spares(s, t, k) && Spares(t, u, k);
    }
  }

  /** Every permit is free. */
  ghost predicate AllFree(cfg: Config, s: State) {
    && s.globalFree == cfg.maxGlobal && (forall owner :: Free(cfg, s, owner) == cfg.maxOwner)
    && Those(s.execs, OnThread) == {}
  }

  lemma IdleMeansFree(cfg: Config, s: State)
    requires PermitsConserved(cfg, s) && Busy(s, {}) == {}
    ensures AllFree(cfg, s)
  {
    forall k | k in s.execs ensures Idle(s.execs[k]) {
      assert k !in Busy(s, {});
    }
    assert Those(s.execs, WaitsForOwner) == {} && Those(s.execs, HasSlots) == {} && Those(s.execs, OnThread) == {};
    forall owner ensures Free(cfg, s, owner) == cfg.maxOwner {
      assert Those(s.execs, SlotsOf(owner)) == {};
      assert Free(cfg, s, owner) + |Those(s.execs, SlotsOf(owner))| == cfg.maxOwner;
    }
  }

  /** Main result. No permit leaks: after every run, some continuation without a new execution returns
      every permit, of the service and of every owner, and every thread. */
  lemma PermitsReturn(cfg: Config, past: seq<Event>) returns (events: seq<Event>)
    requires cfg.Valid()
    ensures NoInsert(events) && AllFree(cfg, Run(cfg, Run(cfg, Initial(cfg), past), events))
  {
    var s := Run(cfg, Initial(cfg), past);
    InvHolds(cfg, past);
    events := Drain(cfg, s, {});
    IdleMeansFree(cfg, Run(cfg, s, events));
  }

  // ----- succeeding and committing

  /** Refused for lack of a permit. */
  predicate TurnedAway(t: Task) {
    t == Refused || t == RefusalRecorded || t == Ended(RaisedCapacity)
  }

  predicate HasSucceeded(e: Exec) {
    e.job.HasOutcome() && e.job.outcome == Succeeded
  }

  /** It has succeeded, or passed the last check, or no check that is still to come stands in its way:
      it is not canceled, or it reads and its statement is already being executed. */
  predicate CanSucceed(e: Exec) {
    || HasSucceeded(e) || e.job == Passed
    || (!e.job.HasOutcome() && !TurnedAway(e.task)
        && (!e.canceled || (!e.writes && e.job in {Executing, Fetching, Deciding})))
  }

  /** It writes, and it has committed or can still succeed. */
  predicate CanCommit(e: Exec) {
    && e.writes
    && (e.committed || e.job == Passed || (!e.canceled && !TurnedAway(e.task) && !e.job.HasOutcome()))
  }

  lemma CommittingIsSucceeding(e: Exec)
    requires CommitsRight(e)
    ensures CanCommit(e) <==> e.writes && (e.committed || CanSucceed(e))
    ensures HasSucceeded(e) && e.writes ==> e.committed
  {
  }

  ghost predicate Committed(s: State, id: Id) {
    id in s.execs && s.execs[id].committed
  }

  function StepsUp(e: Exec): nat {
    if e.task == Inserted then 11
    else if e.task == Registered then 10
    else if e.task == HoldsGlobal then 9
    else if e.task == Admitted then 8
    else if e.task == Marked then 7
    else
      match e.job
      case Pending => 6
      case Entered => 5
      case Executing => 4
      case Fetching => 3
      case Deciding => 2
      case Passed => 1
      case _ => 0
  }

  function UpAction(e: Exec): Action {
    if e.task == Inserted then Register
    else if e.task == Registered then AcquireGlobal
    else if e.task == HoldsGlobal then AcquireOwner
    else if e.task == Admitted then MarkRunning
    else if e.task == Marked then Submit
    else
      match e.job
      case Pending => Start
      case Entered => CheckFirst
      case Executing => StatementDone
      case Fetching => FetchDone
      case Deciding => Decide
      case _ => Commit
  }

  lemma UpMoves(e: Exec)
    requires Coherent(e) && CommitsRight(e) && CanSucceed(e) && !HasSucceeded(e)
    ensures var a := UpAction(e);
            && Ready(e, a) && CanSucceed(Moved(e, a)) && StepsUp(Moved(e, a)) < StepsUp(e)
            && OrderOf(a) == [] && (WriteOf(e, a).Some? ==> a == MarkRunning)
            && (a == AcquireGlobal ==> !e.slots && e.task == Registered)
            && (a == AcquireOwner ==> !e.slots && e.task == HoldsGlobal)
            && (OnThread(e) ==> OnThread(Moved(e, a)))
            && (a == Start ==> !OnThread(e))
  {
  }

  /** Nothing but this execution holds a permit or a thread. */
  lemma AloneIsEnabled(cfg: Config, s: State, id: Id)
    requires cfg.Valid() && Inv(cfg, s) && id in s.execs && Busy(s, {id}) == {}
    ensures !OnThread(s.execs[id]) ==> Those(s.execs, OnThread) == {}
    ensures !s.execs[id].slots ==> Free(cfg, s, s.execs[id].owner) == cfg.maxOwner
    ensures !s.execs[id].slots && s.execs[id].task != HoldsGlobal ==> s.globalFree == cfg.maxGlobal
  {
    forall k | k in s.execs && k != id ensures Idle(s.execs[k]) {
      assert k !in Busy(s, {id});
    }
    var e := s.execs[id];
    assert !OnThread(e) ==> Those(s.execs, OnThread) == {};
    assert Free(cfg, s, e.owner) + |Those(s.execs, SlotsOf(e.owner))| == cfg.maxOwner;
    if !e.slots {
      assert Those(s.execs, SlotsOf(e.owner)) == {} && Those(s.execs, HasSlots) == {};
      assert e.task != HoldsGlobal ==> Those(s.execs, WaitsForOwner) == {};
    }
  }

  /** An execution that can succeed can take a step towards it, if it is alone or already on a thread. */
  lemma UpStep(cfg: Config, s: State, id: Id) returns (a: Action)
    requires cfg.Valid() && Inv(cfg, s) && id in s.execs && CanSucceed(s.execs[id]) && !HasSucceeded(s.execs[id])
    requires Busy(s, {id}) == {} || OnThread(s.execs[id])
    ensures Enabled(cfg, s, Act(id, a)) && a == UpAction(s.execs[id])
  {
    assert Local(s, id);
    UpMoves(s.execs[id]);
    a := UpAction(s.execs[id]);
    if Busy(s, {id}) == {} {
      AloneIsEnabled(cfg, s, id);
    }
  }

  lemma StaysAlone(s: State, t: State, id: Id)
    requires OnlyMoves(s, t, id) && Busy(s, {id}) == {}
    ensures Busy(t, {id}) == {}
  {
    forall k | k in t.execs && k != id ensures Idle(t.execs[k]) {
      assert Spares(s, t, k) && k !in Busy(s, {id});
    }
  }

  lemma SucceedsAlone(cfg: Config, s: State, id: Id) returns (events: seq<Event>)
    requires cfg.Valid() && Inv(cfg, s) && id in s.execs && CanSucceed(s.execs[id])
    requires Busy(s, {id}) == {} || OnThread(s.execs[id]) || HasSucceeded(s.execs[id])
    ensures NoInsert(events) && Inv(cfg, Run(cfg, s, events)) && Succeeds(Run(cfg, s, events), s, id)
    decreases StepsUp(s.execs[id])
  {
    var e := s.execs[id];
    if HasSucceeded(e) {
      events := [];
    } else {
      assert Local(s, id);
      UpMoves(e);
      var a := UpStep(cfg, s, id);
      ActMoves(cfg, s, id, a);
      var t := Next(cfg, s, Act(id, a));
      assert t.execs[id].writes == e.writes;
      if Busy(s, {id}) == {} {
        StaysAlone(s, t, id);
      }
      var rest := SucceedsAlone(cfg, t, id);
      events := RunFirst(cfg, s, Act(id, a), rest);
    }
  }

  /** The execution of `s` has succeeded in `t`. */
  ghost predicate Succeeds(t: State, s: State, id: Id) {
    id in s.execs && id in t.execs && HasSucceeded(t.execs[id]) && t.execs[id].writes == s.execs[id].writes
  }

  /** The other executions make room, then this one succeeds. */
  lemma SucceedsAfterAll(cfg: Config, s: State, id: Id) returns (events: seq<Event>)
    requires cfg.Valid() && Inv(cfg, s) && id in s.execs && CanSucceed(s.execs[id])
    ensures NoInsert(events) && Inv(cfg, Run(cfg, s, events)) && Succeeds(Run(cfg, s, events), s, id)
  {
    if OnThread(s.execs[id]) || HasSucceeded(s.execs[id]) {
      events := SucceedsAlone(cfg, s, id);
    } else {
      var first := Drain(cfg, s, {id});
      var t := Run(cfg, s, first);
      assert Spares(s, t, id);
      var rest := SucceedsAlone(cfg, t, id);
      events := first + rest;
      RunAppend(cfg, s, first, rest);
    }
  }

  lemma CommitsAfterAll(cfg: Config, s: State, id: Id) returns (events: seq<Event>)
    requires cfg.Valid() && Inv(cfg, s) && id in s.execs && CanCommit(s.execs[id])
    ensures NoInsert(events) && Committed(Run(cfg, s, events), id)
  {
    assert Local(s, id);
    CommittingIsSucceeding(s.execs[id]);
    if s.execs[id].committed {
      events := [];
    } else {
      events := SucceedsAfterAll(cfg, s, id);
      var t := Run(cfg, s, events);
      assert Local(t, id);
      CommittingIsSucceeding(t.execs[id]);
    }
  }

  lemma MovedCannotSucceed(e: Exec, a: Action)
    requires Coherent(e) && CommitsRight(e) && Ready(e, a) && !CanSucceed(e)
    ensures !CanSucceed(Moved(e, a))
  {
  }

  lemma {:induction false} NeverSucceeds(cfg: Config, s: State, id: Id, events: seq<Event>)
    requires cfg.Valid() && Inv(cfg, s) && id in s.execs && !CanSucceed(s.execs[id])
    ensures var t := Run(cfg, s, events); Inv(cfg, t) && id in t.execs && !CanSucceed(t.execs[id])
    decreases |events|
  {
    if events != [] {
      var ev := events[0];
      assert Local(s, id);
      if ev.Act? && ev.id == id && Ready(s.execs[id], ev.action) {
        MovedCannotSucceed(s.execs[id], ev.action);
      }
      NextKeeps(cfg, s, ev);
      NeverSucceeds(cfg, Next(cfg, s, ev), id, events[1..]);
    }
  }

  lemma MovedCannotCommit(e: Exec, a: Action)
    requires Coherent(e) && CommitsRight(e) && Ready(e, a) && !CanCommit(e)
    ensures !CanCommit(Moved(e, a))
  {
  }

  lemma NextCannotCommit(cfg: Config, s: State, ev: Event, id: Id)
    requires id in s.execs && Local(s, id) && !CanCommit(s.execs[id])
    ensures id in Next(cfg, s, ev).execs && !CanCommit(Next(cfg, s, ev).execs[id])
  {
    if ev.Act? && ev.id == id && Ready(s.execs[id], ev.action) {
      MovedCannotCommit(s.execs[id], ev.action);
    }
  }

  lemma {:induction false} NeverCommits(cfg: Config, s: State, id: Id, events: seq<Event>)
    requires cfg.Valid() && Inv(cfg, s) && id in s.execs && !CanCommit(s.execs[id])
    ensures var t := Run(cfg, s, events); id in t.execs && !t.execs[id].committed
    decreases |events|
  {
    assert Local(s, id);
    if events != [] {
      NextCannotCommit(cfg, s, events[0], id);
      NextKeeps(cfg, s, events[0]);
      NeverCommits(cfg, Next(cfg, s, events[0]), id, events[1..]);
    }
  }

  /** No continuation makes the execution succeed. */
  ghost predicate Hopeless(cfg: Config, s: State, id: Id) {
    forall events :: !Succeeds(Run(cfg, s, events), s, id)
  }

  /** Main result, for reads and writes. From every reachable state some continuation, even without a
      new execution, makes an execution succeed exactly when it has succeeded, has passed the last
      check, or no check that is still to come stands in its way. */
  lemma SuccessPossibleIff(cfg: Config, s: State, id: Id)
    requires cfg.Valid() && Inv(cfg, s) && id in s.execs
    ensures Hopeless(cfg, s, id) <==> !CanSucceed(s.execs[id])
    ensures CanSucceed(s.execs[id]) ==> exists events :: NoInsert(events) && Succeeds(Run(cfg, s, events), s, id)
  {
    if CanSucceed(s.execs[id]) {
      var events := SucceedsAfterAll(cfg, s, id);
      assert !Hopeless(cfg, s, id);
    } else {
      forall events ensures !Succeeds(Run(cfg, s, events), s, id) {
        NeverSucceeds(cfg, s, id, events);
      }
    }
  }

  /** No continuation commits the execution. */
  ghost predicate Safe(cfg: Config, s: State, id: Id) {
    forall events :: var t := Run(cfg, s, events); id in t.execs && !t.execs[id].committed
  }

  /** Main result. From every reachable state it is decided which executions can still commit: some
      continuation, even without a new execution, commits it exactly when it writes and has committed,
      has passed the last check, or was neither canceled nor refused and has no outcome. */
  lemma CommitPossibleIff(cfg: Config, s: State, id: Id)
    requires cfg.Valid() && Inv(cfg, s) && id in s.execs
    ensures Safe(cfg, s, id) <==> !CanCommit(s.execs[id])
    ensures CanCommit(s.execs[id]) ==> exists events :: NoInsert(events) && Committed(Run(cfg, s, events), id)
  {
    if CanCommit(s.execs[id]) {
      var events := CommitsAfterAll(cfg, s, id);
      assert !Safe(cfg, s, id);
    } else {
      forall events ensures var t := Run(cfg, s, events); id in t.execs && !t.execs[id].committed {
        NeverCommits(cfg, s, id, events);
      }
    }
  }

  lemma CanceledCanCommit(e: Exec, a: Action)
    requires Coherent(e) && CommitsRight(e) && (a == Cancel || a == CancelExpired) && Ready(e, a)
    ensures CanCommit(Moved(e, a)) <==> e.writes && (e.committed || e.job == Passed)
  {
  }

  /** Main result. Canceling, by request, by a lost client or by timeout, keeps the execution from ever
      committing if and only if it does not write, or its worker has neither committed nor passed the
      last check. */
  lemma CanceledInTime(cfg: Config, s: State, id: Id, a: Action)
    requires cfg.Valid() && Inv(cfg, s) && id in s.execs
    requires (a == Cancel || a == CancelExpired) && Ready(s.execs[id], a)
    ensures var e := s.execs[id];
            Safe(cfg, Next(cfg, s, Act(id, a)), id) <==> !e.writes || (!e.committed && e.job != Passed)
  {
    assert Local(s, id);
    CanceledCanCommit(s.execs[id], a);
    ExecutionRaces.QuietNext(cfg, s, id, a);
    NextKeeps(cfg, s, Act(id, a));
    CommitPossibleIff(cfg, Next(cfg, s, Act(id, a)), id);
  }

  // ----- endings

  /** The step that brings the outcome of a worker to its caller. */
  function TellAction(e: Exec, order: seq<Id>): Action {
    match e.job
    case Finished(_) => RecordResult(order)
    case Recorded(_) => Pop
    case Popped(_) => Exit
    case _ => Return
  }

  function StepsToTell(e: Exec): nat {
    if e.task.Ended? then 0
    else
      match e.job
      case Finished(_) => 4
      case Recorded(_) => 3
      case Popped(_) => 2
      case _ => 1
  }

  lemma TellMoves(e: Exec, order: seq<Id>)
    requires e.task == Awaiting && e.job.HasOutcome()
    ensures var a := TellAction(e, order);
            var f := Moved(e, a);
            && Ready(e, a) && StepsToTell(f) < StepsToTell(e) && f.job.HasOutcome() && f.job.outcome == e.job.outcome
            && (f.task == Awaiting || f.task == Ended(EndingOf(e.job.outcome)))
            && a != AcquireGlobal && a != AcquireOwner && a != Start
  {
  }

  lemma TellIsEnabled(cfg: Config, s: State, id: Id) returns (order: seq<Id>)
    requires id in s.execs && s.execs[id].task == Awaiting && s.execs[id].job.HasOutcome()
    ensures Enabled(cfg, s, Act(id, TellAction(s.execs[id], order)))
  {
    var e := s.execs[id];
    order := [];
    if e.job.Finished? {
      order := OrderExists(Update(s.history, id, WriteOf(e, RecordResult([])).value, s.now));
    }
    TellMoves(e, order);
  }

  /** A caller that waits for a worker with an outcome may be told this outcome: a result if it succeeded,
      that it was canceled, or an error. */
  lemma OutcomeMayBeTold(cfg: Config, s: State, id: Id) returns (events: seq<Event>)
    requires cfg.Valid() && Inv(cfg, s) && id in s.execs && s.execs[id].job.HasOutcome()
    requires s.execs[id].task == Awaiting || s.execs[id].task == Ended(EndingOf(s.execs[id].job.outcome))
    ensures NoInsert(events)
    ensures var t := Run(cfg, s, events);
            Inv(cfg, t) && id in t.execs && t.execs[id].task == Ended(EndingOf(s.execs[id].job.outcome))
    decreases StepsToTell(s.execs[id])
  {
    if s.execs[id].task.Ended? {
      events := [];
    } else {
      var order := TellIsEnabled(cfg, s, id);
      var a := TellAction(s.execs[id], order);
      TellMoves(s.execs[id], order);
      ActMoves(cfg, s, id, a);
      var rest := OutcomeMayBeTold(cfg, Next(cfg, s, Act(id, a)), id);
      events := RunFirst(cfg, s, Act(id, a), rest);
    }
  }

  lemma ExpiredIsCanceled(cfg: Config, s: State, id: Id)
    requires id in s.execs && s.execs[id].task == Awaiting
    ensures var t := Next(cfg, Next(cfg, s, Act(id, Expire)), Act(id, CancelExpired));
            t == s.(execs := s.execs[id := s.execs[id].(task := ExpiredCanceled, canceled := true)])
  {
    ExecutionRaces.QuietNext(cfg, s, id, Expire);
    var t := Next(cfg, s, Act(id, Expire));
    ExecutionRaces.QuietNext(cfg, t, id, CancelExpired);
    var f := s.execs[id].(task := ExpiredCanceled, canceled := true);
    assert s.execs[id := s.execs[id].(task := Expired)][id := f] == s.execs[id := f];
  }

  /** While a caller waits, its timeout may strike, whatever the worker has done by then: the caller is told
      of a timeout, and a record that is finished already stays as it is. */
  lemma TimeoutMayStrike(cfg: Config, s: State, id: Id) returns (events: seq<Event>)
    requires id in s.execs && s.execs[id].task == Awaiting
    ensures var t := Run(cfg, s, events);
            && id in t.execs && t.execs[id] == s.execs[id].(task := Ended(RaisedTimeout), canceled := true)
            && (id in t.history ==> id in s.history)
            && (id in t.history && s.history[id].status.Terminal() ==> t.history[id] == s.history[id])
  {
    var e := s.execs[id].(task := ExpiredCanceled, canceled := true);
    var t := s.(execs := s.execs[id := e]);
    var order := OrderExists(Update(s.history, id, Write(TimedOut, false, true), s.now));
    var last := [Act(id, RecordTimeout(order))] + [];
    events := [Act(id, Expire)] + ([Act(id, CancelExpired)] + last);
    ExpiredIsCanceled(cfg, s, id);
    ExecutionRaces.RunOne(cfg, s, Act(id, Expire), [Act(id, CancelExpired)] + last);
    ExecutionRaces.RunOne(cfg, Next(cfg, s, Act(id, Expire)), Act(id, CancelExpired), last);
    ExecutionRaces.RunOne(cfg, t, Act(id, RecordTimeout(order)), []);
    ExecutionRaces.FinalNext(cfg, t, id, RecordTimeout(order));
    ExecutionRaces.FinalStep(cfg, t, id, RecordTimeout(order));
  }
}

/** What a new execution may go through from any state with a free permit and a free thread: it can
    commit, and three races can make the record or the caller say otherwise. */
module ExecutionRaces {
  import opened Wrappers
  import opened History
  import opened Execution

  /** The state with one execution and its record put in. */
  function With(s: State, id: Id, e: Exec, r: Record): State {
    s.(execs := s.execs[id := e], history := s.history[id := r])
  }

  /** Room for one more execution. */
  predicate HasRoom(cfg: Config, s: State, id: Id, owner: Owner) {
    && id !in s.execs && s.globalFree > 0 && Free(cfg, s, owner) > 0
    && |Those(s.execs, OnThread)| < cfg.Workers()
  }

  /** The permits and the context of one more execution. */
  function Held(cfg: Config, s: State, id: Id, owner: Owner): State {
    s.(globalFree := s.globalFree - 1, ownerFree := s.ownerFree[owner := Free(cfg, s, owner) - 1],
       contexts := s.contexts + {id})
  }

  function Fresh(owner: Owner): Exec {
    Exec(owner, true, Inserted, Absent, false, false, false, false)
  }

  /** A write that has its permits. */
  function AdmittedWrite(owner: Owner): Exec {
    Exec(owner, true, Admitted, Absent, true, false, false, false)
  }

  /** A running write whose worker has passed the last check. */
  function Committing(owner: Owner): Exec {
    Exec(owner, true, Awaiting, Passed, true, false, false, false)
  }

  function RunningRecord(owner: Owner, now: nat): Record {
    Record(owner, Running, now, Some(now), None)
  }

  lemma {:induction false} RunOne(cfg: Config, s: State, ev: Event, rest: seq<Event>)
    ensures Run(cfg, s, [ev] + rest) == Run(cfg, Next(cfg, s, ev), rest)
  {
    assert ([ev] + rest)[1..] == rest;
  }

  predicate Quiet(a: Action) {
    a.Cancel? || a.Commit? || a.LoseCommit? || a.Submit? || a.Start? || a.CheckFirst? || a.StatementDone?
    || a.FetchDone? || a.Decide? || a.Expire? || a.CancelExpired? || a.Exit? || a.Return? || a.GlobalTimeout?
  }

  lemma QuietStep(cfg: Config, s: State, id: Id, a: Action)
    requires id in s.execs && Quiet(a)
    ensures WriteOf(s.execs[id], a).None? && a != AcquireGlobal && a != AcquireOwner
    ensures Step(cfg, s, id, a) == s.(execs := s.execs[id := Moved(s.execs[id], a)])
  {
  }

  lemma QuietNext(cfg: Config, s: State, id: Id, a: Action)
    requires id in s.execs && Ready(s.execs[id], a) && Quiet(a)
    requires a == Start ==> |Those(s.execs, OnThread)| < cfg.Workers()
    ensures Next(cfg, s, Act(id, a)) == s.(execs := s.execs[id := Moved(s.execs[id], a)])
  {
    QuietStep(cfg, s, id, a);
    assert Enabled(cfg, s, Act(id, a));
  }

  lemma {:induction false} QuietMove(cfg: Config, s: State, id: Id, e: Exec, r: Record, a: Action, rest: seq<Event>)
    requires Ready(e, a) && Quiet(a)
    requires a == Start ==> |Those(s.execs[id := e], OnThread)| < cfg.Workers()
    ensures Run(cfg, With(s, id, e, r), [Act(id, a)] + rest) == Run(cfg, With(s, id, Moved(e, a), r), rest)
  {
    QuietNext(cfg, With(s, id, e, r), id, a);
    assert s.execs[id := e][id := Moved(e, a)] == s.execs[id := Moved(e, a)];
    RunOne(cfg, With(s, id, e, r), Act(id, a), rest);
  }

  lemma WritingNext(cfg: Config, s: State, id: Id, a: Action)
    requires id in s.execs && Ready(s.execs[id], a) && (a.RecordCancel? || a.MarkRunning?)
    ensures Next(cfg, s, Act(id, a))
            == s.(execs := s.execs[id := Moved(s.execs[id], a)],
                  history := Update(s.history, id, WriteOf(s.execs[id], a).value, s.now))
  {
    WritingStep(cfg, s, id, a);
    assert Enabled(cfg, s, Act(id, a));
  }

  lemma WritingStep(cfg: Config, s: State, id: Id, a: Action)
    requires id in s.execs && (a.RecordCancel? || a.MarkRunning?)
    ensures WriteOf(s.execs[id], a).Some? && !WriteOf(s.execs[id], a).value.status.Terminal()
    ensures Step(cfg, s, id, a)
            == s.(execs := s.execs[id := Moved(s.execs[id], a)],
                  history := Update(s.history, id, WriteOf(s.execs[id], a).value, s.now))
  {
    assert GlobalAfter(s.globalFree, a) == s.globalFree && ContextsAfter(s.contexts, id, a) == s.contexts;
    assert OwnersAfter(cfg, s.ownerFree, s.execs[id].owner, a) == s.ownerFree;
  }

  lemma {:induction false} WritingMove(cfg: Config, s: State, id: Id, e: Exec, r: Record, a: Action, rest: seq<Event>)
    requires Ready(e, a) && (a.RecordCancel? || a.MarkRunning?)
    ensures Run(cfg, With(s, id, e, r), [Act(id, a)] + rest)
            == Run(cfg, With(s, id, Moved(e, a), Updated(r, WriteOf(e, a).value, s.now)), rest)
  {
    WritingNext(cfg, With(s, id, e, r), id, a);
    var after := Updated(r, WriteOf(e, a).value, s.now);
    assert s.execs[id := e][id := Moved(e, a)] == s.execs[id := Moved(e, a)];
    assert s.history[id := r][id := after] == s.history[id := after];
    RunOne(cfg, With(s, id, e, r), Act(id, a), rest);
  }

  // ----- admission

  lemma {:induction false} Registration(cfg: Config, s: State, id: Id, owner: Owner, rest: seq<Event>)
    requires id !in s.execs
    ensures var known := s.(ownerFree := s.ownerFree[owner := Free(cfg, s, owner)], contexts := s.contexts + {id});
            Run(cfg, s, [Insert(id, owner, true)] + ([Act(id, Register)] + rest))
            == Run(cfg, With(known, id, Fresh(owner).(task := Registered), NewRecord(s, owner)), rest)
  {
    var known := s.(ownerFree := s.ownerFree[owner := Free(cfg, s, owner)], contexts := s.contexts + {id});
    var e, r := Fresh(owner), NewRecord(s, owner);
    RunOne(cfg, s, Insert(id, owner, true), [Act(id, Register)] + rest);
    assert Next(cfg, s, Insert(id, owner, true)) == With(s, id, e, r);
    RunOne(cfg, With(s, id, e, r), Act(id, Register), rest);
    assert s.execs[id := e][id := e.(task := Registered)] == s.execs[id := e.(task := Registered)];
    assert Next(cfg, With(s, id, e, r), Act(id, Register)) == With(known, id, e.(task := Registered), r);
  }

  lemma {:induction false} TakeGlobal(cfg: Config, s: State, id: Id, owner: Owner, r: Record, rest: seq<Event>)
    requires s.globalFree > 0
    ensures Run(cfg, With(s, id, Fresh(owner).(task := Registered), r), [Act(id, AcquireGlobal)] + rest)
            == Run(cfg, With(s.(globalFree := s.globalFree - 1), id, Fresh(owner).(task := HoldsGlobal), r), rest)
  {
    var e, waiting := Fresh(owner).(task := Registered), Fresh(owner).(task := HoldsGlobal);
    RunOne(cfg, With(s, id, e, r), Act(id, AcquireGlobal), rest);
    assert s.execs[id := e][id := waiting] == s.execs[id := waiting];
  }

  lemma {:induction false} TakeOwner(cfg: Config, s: State, id: Id, owner: Owner, r: Record, rest: seq<Event>)
    requires owner in s.ownerFree && s.ownerFree[owner] > 0
    ensures Run(cfg, With(s, id, Fresh(owner).(task := HoldsGlobal), r), [Act(id, AcquireOwner)] + rest)
            == Run(cfg, With(s.(ownerFree := s.ownerFree[owner := s.ownerFree[owner] - 1]), id, AdmittedWrite(owner), r), rest)
  {
    var waiting := Fresh(owner).(task := HoldsGlobal);
    RunOne(cfg, With(s, id, waiting, r), Act(id, AcquireOwner), rest);
    assert s.execs[id := waiting][id := AdmittedWrite(owner)] == s.execs[id := AdmittedWrite(owner)];
  }

  lemma {:induction false} Acquisition(cfg: Config, s: State, id: Id, owner: Owner, r: Record, rest: seq<Event>)
    requires s.globalFree > 0 && owner in s.ownerFree && s.ownerFree[owner] > 0
    ensures Run(cfg, With(s, id, Fresh(owner).(task := Registered), r),
                [Act(id, AcquireGlobal)] + ([Act(id, AcquireOwner)] + rest))
            == Run(cfg, With(s.(globalFree := s.globalFree - 1, ownerFree := s.ownerFree[owner := s.ownerFree[owner] - 1]),
                             id, AdmittedWrite(owner), r), rest)
  {
    TakeGlobal(cfg, s, id, owner, r, [Act(id, AcquireOwner)] + rest);
    TakeOwner(cfg, s.(globalFree := s.globalFree - 1), id, owner, r, rest);
  }

  /** Permits taken in turn, up to the admission. */
  lemma Admission(cfg: Config, s: State, id: Id, owner: Owner, rest: seq<Event>)
    returns (events: seq<Event>)
    requires HasRoom(cfg, s, id, owner)
    ensures Run(cfg, s, events)
            == Run(cfg, With(Held(cfg, s, id, owner), id, AdmittedWrite(owner), NewRecord(s, owner)), rest)
    ensures |events| == 4 + |rest| && events[0] == Insert(id, owner, true)
  {
    var acquire := [Act(id, AcquireGlobal)] + ([Act(id, AcquireOwner)] + rest);
    events := [Insert(id, owner, true)] + ([Act(id, Register)] + acquire);
    Registration(cfg, s, id, owner, acquire);
    var known := s.(ownerFree := s.ownerFree[owner := Free(cfg, s, owner)], contexts := s.contexts + {id});
    HeldInTwo(cfg, s, id, owner);
    Acquisition(cfg, known, id, owner, NewRecord(s, owner), rest);
  }

  lemma HeldInTwo(cfg: Config, s: State, id: Id, owner: Owner)
    ensures var known := s.(ownerFree := s.ownerFree[owner := Free(cfg, s, owner)], contexts := s.contexts + {id});
            known.(globalFree := known.globalFree - 1, ownerFree := known.ownerFree[owner := known.ownerFree[owner] - 1])
            == Held(cfg, s, id, owner)
  {
    var left := Free(cfg, s, owner) - 1;
    assert s.ownerFree[owner := Free(cfg, s, owner)][owner := left] == s.ownerFree[owner := left];
  }

  // ----- the work, up to the last check

  lemma Submitting(cfg: Config, s: State, id: Id, owner: Owner, rest: seq<Event>)
    returns (events: seq<Event>)
    ensures Run(cfg, With(s, id, AdmittedWrite(owner), Record(owner, Queued, s.now, None, None)), events)
            == Run(cfg, With(s, id, Committing(owner).(job := Pending), RunningRecord(owner, s.now)), rest)
  {
    var e := AdmittedWrite(owner);
    var submit := [Act(id, Submit)] + rest;
    events := [Act(id, MarkRunning)] + submit;
    WritingMove(cfg, s, id, e, Record(owner, Queued, s.now, None, None), MarkRunning, submit);
    QuietMove(cfg, s, id, e.(task := Marked), RunningRecord(owner, s.now), Submit, rest);
  }

  lemma Starting(cfg: Config, s: State, id: Id, owner: Owner, r: Record, rest: seq<Event>)
    returns (events: seq<Event>)
    requires id !in s.execs && |Those(s.execs, OnThread)| < cfg.Workers()
    ensures Run(cfg, With(s, id, Committing(owner).(job := Pending), r), events)
            == Run(cfg, With(s, id, Committing(owner).(job := Executing), r), rest)
  {
    var e := Committing(owner);
    var check := [Act(id, CheckFirst)] + rest;
    events := [Act(id, Start)] + check;
    assert Those(s.execs[id := e.(job := Pending)], OnThread) == Those(s.execs, OnThread);
    QuietMove(cfg, s, id, e.(job := Pending), r, Start, check);
    QuietMove(cfg, s, id, e.(job := Entered), r, CheckFirst, rest);
  }

  lemma Executes(cfg: Config, s: State, id: Id, owner: Owner, r: Record, rest: seq<Event>)
    returns (events: seq<Event>)
    ensures Run(cfg, With(s, id, Committing(owner).(job := Executing), r), events)
            == Run(cfg, With(s, id, Committing(owner), r), rest)
  {
    var e := Committing(owner);
    var decide := [Act(id, Decide)] + rest;
    var fetch := [Act(id, FetchDone)] + decide;
    events := [Act(id, StatementDone)] + fetch;
    QuietMove(cfg, s, id, e.(job := Executing), r, StatementDone, fetch);
    QuietMove(cfg, s, id, e.(job := Fetching), r, FetchDone, decide);
    QuietMove(cfg, s, id, e.(job := Deciding), r, Decide, rest);
  }

  lemma ReachesCommit(cfg: Config, s: State, id: Id, owner: Owner, rest: seq<Event>)
    returns (events: seq<Event>)
    requires HasRoom(cfg, s, id, owner)
    ensures Run(cfg, s, events)
            == Run(cfg, With(Held(cfg, s, id, owner), id, Committing(owner), RunningRecord(owner, s.now)), rest)
    ensures events != [] && events[0] == Insert(id, owner, true)
  {
    var held, r := Held(cfg, s, id, owner), RunningRecord(owner, s.now);
    var execute := Executes(cfg, held, id, owner, r, rest);
    var start := Starting(cfg, held, id, owner, r, execute);
    var submit := Submitting(cfg, held, id, owner, start);
    events := Admission(cfg, s, id, owner, submit);
  }

  /** Main result. From every state with room, a new write can run to its commit. */
  lemma NewWriteCanCommit(cfg: Config, s: State, id: Id, owner: Owner) returns (events: seq<Event>)
    requires HasRoom(cfg, s, id, owner)
    ensures events != [] && events[0] == Insert(id, owner, true)
    ensures var t := Run(cfg, s, events);
            && t.execs == s.execs[id := Committing(owner).(job := Finished(Succeeded), committed := true)]
            && t.globalFree == s.globalFree - 1
            && t.ownerFree == s.ownerFree[owner := Free(cfg, s, owner) - 1]
  {
    var rest := [Act(id, Commit)] + [];
    events := ReachesCommit(cfg, s, id, owner, rest);
    QuietMove(cfg, Held(cfg, s, id, owner), id, Committing(owner), RunningRecord(owner, s.now), Commit, []);
  }

  // ----- races

  /** The record and the cancel event once a cancellation is requested. */
  lemma {:induction false} RequestWhileAdmitted(
    cfg: Config, s: State, id: Id, owner: Owner, r: Record, rest: seq<Event>)
    requires r.status == Queued
    ensures Run(cfg, With(s, id, AdmittedWrite(owner), r), [Act(id, Cancel)] + ([Act(id, RecordCancel)] + rest))
            == Run(cfg, With(s, id, AdmittedWrite(owner).(canceled := true), r.(status := CancelRequested)), rest)
  {
    var e := AdmittedWrite(owner);
    QuietMove(cfg, s, id, e, r, Cancel, [Act(id, RecordCancel)] + rest);
    WritingMove(cfg, s, id, e.(canceled := true), r, RecordCancel, rest);
  }

  /** A cancellation requested while the execution is being admitted: the status goes back to running,
      but the cancel event stays set. */
  lemma RunningHidesCancelRequest(cfg: Config, s: State, id: Id, owner: Owner)
    returns (requested: seq<Event>, later: Event)
    requires HasRoom(cfg, s, id, owner)
    ensures var t := Run(cfg, s, requested);
            id in t.history && t.history[id].status == CancelRequested
    ensures var t := Run(cfg, s, requested + [later]);
            && id in t.execs && id in t.history
            && t.history[id].status == Running && t.execs[id].canceled && !t.execs[id].job.HasOutcome()
  {
    var held, r := Held(cfg, s, id, owner), NewRecord(s, owner);
    requested := Admission(cfg, s, id, owner, [Act(id, Cancel)] + ([Act(id, RecordCancel)] + []));
    later := Act(id, MarkRunning);
    RequestWhileAdmitted(cfg, held, id, owner, r, []);
    RunAppend(cfg, s, requested, [later] + []);
    assert [later] + [] == [later];
    WritingMove(cfg, held, id, AdmittedWrite(owner).(canceled := true), r.(status := CancelRequested), MarkRunning, []);
  }

  /** Committed, and reported as timed out. */
  function LateWrite(owner: Owner): Exec {
    Exec(owner, true, Ended(RaisedTimeout), Finished(Succeeded), true, true, true, false)
  }

  /** The same before the timeout is recorded. */
  function LateCommit(owner: Owner): Exec {
    LateWrite(owner).(task := ExpiredCanceled)
  }

  /** The events that write a final status. */
  predicate Final(a: Action) {
    a.RecordRefusal? || a.RecordTimeout? || a.RecordResult?
  }

  lemma FinalStep(cfg: Config, s: State, id: Id, a: Action)
    requires id in s.execs && Final(a)
    ensures WriteOf(s.execs[id], a).Some? && WriteOf(s.execs[id], a).value.status.Terminal()
    ensures Step(cfg, s, id, a)
            == s.(execs := s.execs[id := Moved(s.execs[id], a)],
                  history := Update(s.history, id, WriteOf(s.execs[id], a).value, s.now)
                             - Excess(OrderOf(a), cfg.historySize))
  {
  }

  /** A final status can always be written. */
  lemma FinalNext(cfg: Config, s: State, id: Id, a: Action)
    requires id in s.execs && Final(a) && Ready(s.execs[id], a) && WriteOf(s.execs[id], a).Some?
    requires NewestFirst(Update(s.history, id, WriteOf(s.execs[id], a).value, s.now), OrderOf(a))
    ensures Next(cfg, s, Act(id, a)) == Step(cfg, s, id, a)
  {
    FinalStep(cfg, s, id, a);
    assert Enabled(cfg, s, Act(id, a));
  }

  lemma OrderFits(t: Table, id: Id, w: Write, now: nat, size: nat, order: seq<Id>)
    requires NewestFirst(Update(t, id, w, now), order) && |Terminals(t)| < size
    ensures Excess(order, size) == {}
  {
    DistinctCount(order);
    assert Elements(order) <= Terminals(t) + {id};
    FewerElements(Elements(order), Terminals(t) + {id});
  }

  /** Recorded as timed out, though it committed; the record is there unless a full history dropped it. */
  predicate IsLate(cfg: Config, s: State, t: State, id: Id) {
    && id in s.execs && t.execs == s.execs[id := LateWrite(s.execs[id].owner)]
    && (id in t.history ==> t.history[id].status == TimedOut)
    && (|Terminals(s.history)| < cfg.historySize ==> id in t.history)
    && t.globalFree == s.globalFree && t.ownerFree == s.ownerFree
  }

  lemma TimeoutRecorded(cfg: Config, s: State, id: Id, owner: Owner, r: Record) returns (last: Event)
    requires !r.status.Terminal()
    ensures IsLate(cfg, With(s, id, LateCommit(owner), r), Next(cfg, With(s, id, LateCommit(owner), r), last), id)
  {
    var late := With(s, id, LateCommit(owner), r);
    var w := Write(TimedOut, false, true);
    var order := OrderExists(Update(late.history, id, w, late.now));
    last := Act(id, RecordTimeout(order));
    FinalNext(cfg, late, id, RecordTimeout(order));
    FinalStep(cfg, late, id, RecordTimeout(order));
    assert s.execs[id := LateCommit(owner)][id := LateWrite(owner)] == s.execs[id := LateWrite(owner)];
    if |Terminals(late.history)| < cfg.historySize {
      OrderFits(late.history, id, w, late.now, cfg.historySize, order);
    }
  }

  lemma TimesOutLate(cfg: Config, s: State, id: Id, owner: Owner, r: Record, rest: seq<Event>)
    returns (events: seq<Event>)
    ensures Run(cfg, With(s, id, Committing(owner), r), events) == Run(cfg, With(s, id, LateCommit(owner), r), rest)
  {
    var e := Committing(owner);
    var commit := [Act(id, Commit)] + rest;
    var cancel := [Act(id, CancelExpired)] + commit;
    events := [Act(id, Expire)] + cancel;
    QuietMove(cfg, s, id, e, r, Expire, cancel);
    QuietMove(cfg, s, id, e.(task := Expired), r, CancelExpired, commit);
    QuietMove(cfg, s, id, e.(task := ExpiredCanceled, canceled := true), r, Commit, rest);
  }

  lemma LateRun(
    cfg: Config, s: State, id: Id, owner: Owner, last: Event) returns (events: seq<Event>)
    requires HasRoom(cfg, s, id, owner)
    ensures events != [] && events[0] == Insert(id, owner, true)
    ensures Run(cfg, s, events)
            == Next(cfg, With(Held(cfg, s, id, owner), id, LateCommit(owner), RunningRecord(owner, s.now)), last)
  {
    var held, r := Held(cfg, s, id, owner), RunningRecord(owner, s.now);
    var late := TimesOutLate(cfg, held, id, owner, r, [last] + []);
    events := ReachesCommit(cfg, s, id, owner, late);
    RunOne(cfg, With(held, id, LateCommit(owner), r), last, []);
  }

  /** The state after the race, compared with the state before the execution. */
  predicate CommittedLate(cfg: Config, s: State, t: State, id: Id, owner: Owner) {
    && t.execs == s.execs[id := LateWrite(owner)]
    && (id in t.history ==> t.history[id].status == TimedOut)
    && (|Terminals(s.history)| < cfg.historySize ==> id in t.history)
    && t.globalFree == s.globalFree - 1
    && t.ownerFree == s.ownerFree[owner := Free(cfg, s, owner) - 1]
  }

  lemma LateAtLast(cfg: Config, s: State, t: State, id: Id, owner: Owner, r: Record)
    requires id !in s.history && !r.status.Terminal()
    requires IsLate(cfg, With(Held(cfg, s, id, owner), id, LateCommit(owner), r), t, id)
    ensures CommittedLate(cfg, s, t, id, owner)
  {
    assert s.execs[id := LateCommit(owner)][id := LateWrite(owner)] == s.execs[id := LateWrite(owner)];
    assert Terminals(s.history[id := r]) == Terminals(s.history);
  }

  /** A timeout that strikes after the last check is recorded, and reported, although the execution
      commits. */
  lemma TimeoutHidesCommit(cfg: Config, s: State, id: Id, owner: Owner) returns (events: seq<Event>)
    requires HasRoom(cfg, s, id, owner) && id !in s.history
    ensures events != [] && events[0] == Insert(id, owner, true)
    ensures CommittedLate(cfg, s, Run(cfg, s, events), id, owner)
  {
    var held, r := Held(cfg, s, id, owner), RunningRecord(owner, s.now);
    var last := TimeoutRecorded(cfg, held, id, owner, r);
    events := LateRun(cfg, s, id, owner, last);
    LateAtLast(cfg, s, Run(cfg, s, events), id, owner, r);
  }

  // ----- a commit whose report is lost, and a refusal

  /** Committed, raised, recorded as failed. */
  function LostWrite(owner: Owner): Exec {
    Exec(owner, true, Ended(RaisedError), Done(Error), true, false, true, true)
  }

  lemma PopNext(cfg: Config, s: State, id: Id)
    requires id in s.execs && s.execs[id].job == Recorded(Error)
    ensures Next(cfg, s, Act(id, Pop))
            == s.(execs := s.execs[id := s.execs[id].(job := Popped(Error))], contexts := s.contexts - {id})
  {
    assert WriteOf(s.execs[id], Pop).None?;
    assert Enabled(cfg, s, Act(id, Pop));
  }

  /** A failed worker leaves, and its caller is told. */
  lemma FailureReturns(cfg: Config, s: State, id: Id, owner: Owner) returns (events: seq<Event>)
    requires id in s.execs && s.execs[id] == LostWrite(owner).(task := Awaiting, job := Recorded(Error))
    ensures var t := Run(cfg, s, events);
            t.execs == s.execs[id := LostWrite(owner)] && t.globalFree == s.globalFree && t.ownerFree == s.ownerFree
  {
    var e := LostWrite(owner);
    var last := [Act(id, Return)] + [];
    var exit := [Act(id, Exit)] + last;
    events := [Act(id, Pop)] + exit;
    PopNext(cfg, s, id);
    RunOne(cfg, s, Act(id, Pop), exit);
    var s1 := Next(cfg, s, Act(id, Pop));
    QuietNext(cfg, s1, id, Exit);
    RunOne(cfg, s1, Act(id, Exit), last);
    var s2 := s1.(execs := s.execs[id := e.(task := Awaiting)]);
    assert Next(cfg, s1, Act(id, Exit)) == s2;
    QuietNext(cfg, s2, id, Return);
    RunOne(cfg, s2, Act(id, Return), []);
    assert s.execs[id := e.(task := Awaiting)][id := e] == s.execs[id := e];
  }

  lemma FailureRecorded(cfg: Config, s: State, id: Id, owner: Owner, r: Record)
    returns (record: Event)
    ensures var failed := LostWrite(owner).(task := Awaiting, job := Finished(Error));
            var t := Next(cfg, With(s, id, failed, r), record);
            && t.execs == s.execs[id := failed.(job := Recorded(Error))]
            && t.globalFree == s.globalFree && t.ownerFree == s.ownerFree
  {
    var failed := LostWrite(owner).(task := Awaiting, job := Finished(Error));
    var late := With(s, id, failed, r);
    var order := OrderExists(Update(late.history, id, Write(Failed, false, true), late.now));
    record := Act(id, RecordResult(order));
    FinalNext(cfg, late, id, RecordResult(order));
    FinalStep(cfg, late, id, RecordResult(order));
    assert s.execs[id := failed][id := failed.(job := Recorded(Error))] == s.execs[id := failed.(job := Recorded(Error))];
  }

  lemma LostRun(cfg: Config, s: State, id: Id, owner: Owner, record: Event, rest: seq<Event>)
    returns (events: seq<Event>)
    requires HasRoom(cfg, s, id, owner)
    ensures events != [] && events[0] == Insert(id, owner, true)
    ensures var failed := LostWrite(owner).(task := Awaiting, job := Finished(Error));
            Run(cfg, s, events)
            == Run(cfg, Next(cfg, With(Held(cfg, s, id, owner), id, failed, RunningRecord(owner, s.now)), record), rest)
  {
    var held, r := Held(cfg, s, id, owner), RunningRecord(owner, s.now);
    events := ReachesCommit(cfg, s, id, owner, [Act(id, LoseCommit)] + ([record] + rest));
    QuietMove(cfg, held, id, Committing(owner), r, LoseCommit, [record] + rest);
    RunOne(cfg, With(held, id, LostWrite(owner).(task := Awaiting, job := Finished(Error)), r), record, rest);
  }

  predicate CommittedLost(cfg: Config, s: State, t: State, id: Id, owner: Owner) {
    && t.execs == s.execs[id := LostWrite(owner)]
    && t.globalFree == s.globalFree - 1
    && t.ownerFree == s.ownerFree[owner := Free(cfg, s, owner) - 1]
  }

  /** A commit that takes effect although it raises: the caller is told of an error. */
  lemma LostCommitRaises(cfg: Config, s: State, id: Id, owner: Owner) returns (events: seq<Event>)
    requires HasRoom(cfg, s, id, owner)
    ensures events != [] && events[0] == Insert(id, owner, true)
    ensures CommittedLost(cfg, s, Run(cfg, s, events), id, owner)
  {
    var held, r := Held(cfg, s, id, owner), RunningRecord(owner, s.now);
    var failed := LostWrite(owner).(task := Awaiting, job := Finished(Error));
    var record := FailureRecorded(cfg, held, id, owner, r);
    var s1 := Next(cfg, With(held, id, failed, r), record);
    var rest := FailureReturns(cfg, s1, id, owner);
    events := LostRun(cfg, s, id, owner, record, rest);
    LostAtLast(cfg, s, s1, Run(cfg, s1, rest), id, owner);
  }

  lemma LostAtLast(cfg: Config, s: State, s1: State, t: State, id: Id, owner: Owner)
    requires var held := Held(cfg, s, id, owner);
             && s1.execs == held.execs[id := LostWrite(owner).(task := Awaiting, job := Recorded(Error))]
             && s1.globalFree == held.globalFree && s1.ownerFree == held.ownerFree
    requires t.execs == s1.execs[id := LostWrite(owner)] && t.globalFree == s1.globalFree && t.ownerFree == s1.ownerFree
    ensures CommittedLost(cfg, s, t, id, owner)
  {
    var failed := LostWrite(owner).(task := Awaiting, job := Recorded(Error));
    assert s.execs[id := failed][id := LostWrite(owner)] == s.execs[id := LostWrite(owner)];
  }

  lemma RecordsRefusal(cfg: Config, s: State, id: Id, e: Exec, r: Record) returns (record: Event)
    requires e.task == Refused && r.status == Queued && r.finished.None?
    ensures var t := Next(cfg, With(s, id, e, r), record);
            && t.execs == s.execs[id := e.(task := RefusalRecorded)]
            && (id in t.history ==> t.history[id].status == Failed && t.history[id].finished.None?)
            && (|Terminals(s.history[id := r])| < cfg.historySize ==> id in t.history)
  {
    var w := Write(Failed, false, false);
    var refused := With(s, id, e, r);
    var order := OrderExists(Update(refused.history, id, w, refused.now));
    record := Act(id, RecordRefusal(order));
    FinalNext(cfg, refused, id, RecordRefusal(order));
    FinalStep(cfg, refused, id, RecordRefusal(order));
    assert s.execs[id := e][id := e.(task := RefusalRecorded)] == s.execs[id := e.(task := RefusalRecorded)];
    if |Terminals(refused.history)| < cfg.historySize {
      OrderFits(refused.history, id, w, refused.now, cfg.historySize, order);
    }
  }

  /** An execution refused for lack of a permit: recorded as failed, without a finishing time. */
  lemma RefusalHasNoFinish(cfg: Config, s: State, id: Id, owner: Owner) returns (events: seq<Event>)
    requires id !in s.execs && id !in s.history
    ensures var t := Run(cfg, s, events);
            && id in t.execs && t.execs[id].task == RefusalRecorded
            && (id in t.history ==> t.history[id].status == Failed && t.history[id].finished.None?)
            && (|Terminals(s.history)| < cfg.historySize ==> id in t.history)
  {
    var known := s.(ownerFree := s.ownerFree[owner := Free(cfg, s, owner)], contexts := s.contexts + {id});
    var e, r := Fresh(owner).(task := Registered), NewRecord(s, owner);
    var record := RecordsRefusal(cfg, known, id, e.(task := Refused), r);
    var refuse := [Act(id, GlobalTimeout)] + ([record] + []);
    events := [Insert(id, owner, true)] + ([Act(id, Register)] + refuse);
    Registration(cfg, s, id, owner, refuse);
    QuietMove(cfg, known, id, e, r, GlobalTimeout, [record] + []);
    RunOne(cfg, With(known, id, e.(task := Refused), r), record, []);
    assert Terminals(s.history[id := r]) == Terminals(s.history);
  }
}

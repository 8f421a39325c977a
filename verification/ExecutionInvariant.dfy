/** The invariant of the execution protocol, and the proof that every event keeps it. */
module ExecutionInvariant {
  import opened Wrappers
  import opened History
  import opened Execution

  // ----- the invariant, execution by execution

  predicate BeforeSubmit(t: Task) {
    t in {Inserted, Registered, HoldsGlobal, Refused, RefusalRecorded, Admitted, Marked, Ended(RaisedCapacity)}
  }

  predicate WasRefused(t: Task) {
    t in {RefusalRecorded, Ended(RaisedCapacity)}
  }

  /** The coroutine, the worker and the permits agree. */
  predicate Coherent(e: Exec) {
    && (BeforeSubmit(e.task) <==> e.job == Absent)
    && (e.task == Inserted ==> !e.canceled)
    && (e.slots ==> e.task in {Admitted, Marked} || e.job.Submitted())
    && (e.task in {Admitted, Marked} || e.job.Unfinished() ==> e.slots)
    && (e.task.Ended? && e.task.ending in {Returned, RaisedCanceled, RaisedError} ==>
          e.job.Done? && e.task.ending == EndingOf(e.job.outcome))
  }

  /** A commit happens in executions that write, and exactly in those that succeed or whose commit
      was reported as an error; what ends as canceled was canceled. */
  predicate CommitsRight(e: Exec) {
    && (e.committed ==> e.writes && e.job.HasOutcome())
    && (e.job == Passed ==> e.writes)
    && (e.lost ==> e.job.HasOutcome() && e.job.outcome == Error)
    && (e.job.HasOutcome() && e.job.outcome == CanceledByFlag ==> e.canceled)
    && (e.job.HasOutcome() ==> (e.committed <==> (e.job.outcome == Succeeded && e.writes) || e.lost))
  }

  /** A final status has been written. */
  predicate Settled(e: Exec) {
    e.job.HasRecorded() || WasRefused(e.task) || e.task == Ended(RaisedTimeout)
  }

  predicate Recorded(e: Exec, r: Record) {
    && r.owner == e.owner
    && (r.status.Terminal() <==> Settled(e))
    && (r.status == TimedOut ==> e.task == Ended(RaisedTimeout))
    && (e.job.HasRecorded() ==> r.status == TimedOut || r.status == StatusOf(e.job.outcome))
    && (e.task == Ended(RaisedTimeout) && !e.job.HasRecorded() ==> r.status == TimedOut)
    && (WasRefused(e.task) ==> r.status == Failed)
    && (r.started.Some? <==> e.task == Marked || e.job.Submitted())
    && (r.finished.Some? <==> r.status.Terminal() && !WasRefused(e.task))
  }

  predicate InContexts(e: Exec) {
    e.task != Inserted && e.task != Ended(RaisedCapacity) && !e.job.Popped? && !e.job.Done?
  }

  ghost predicate Local(s: State, id: Id)
    requires id in s.execs
  {
    var e := s.execs[id];
    && Coherent(e) && CommitsRight(e)
    && (if id in s.history then Recorded(e, s.history[id]) else Settled(e))
    && (id in s.contexts <==> InContexts(e))
    && (e.task != Inserted ==> e.owner in s.ownerFree)
  }

  // ----- the invariant, over all executions

  predicate WaitsForOwner(e: Exec) {
    e.task == HoldsGlobal
  }

  predicate HasSlots(e: Exec) {
    e.slots
  }

  function SlotsOf(owner: Owner): Exec -> bool {
    (e: Exec) => e.slots && e.owner == owner
  }

  ghost predicate PermitsConserved(cfg: Config, s: State) {
    && 0 <= s.globalFree
    && s.globalFree + |Those(s.execs, WaitsForOwner)| + |Those(s.execs, HasSlots)| == cfg.maxGlobal
    && forall owner :: 0 <= Free(cfg, s, owner) && Free(cfg, s, owner) + |Those(s.execs, SlotsOf(owner))| == cfg.maxOwner
  }

  ghost predicate Inv(cfg: Config, s: State) {
    && (forall id | id in s.execs :: Local(s, id))
    && s.contexts <= s.execs.Keys && s.history.Keys <= s.execs.Keys
    && PermitsConserved(cfg, s)
    && |Those(s.execs, OnThread)| <= cfg.Workers()
    && |Terminals(s.history)| <= cfg.historySize
  }

  // ----- counting

  function One(b: bool): nat {
    if b then 1 else 0
  }

  lemma CountOne(before: set<Id>, after: set<Id>, id: Id)
    requires before - {id} == after - {id}
    ensures |after| == |before| - One(id in before) + One(id in after)
  {
    var rest := before - {id};
    assert before == if id in before then rest + {id} else rest;
    assert after == if id in after then rest + {id} else rest;
  }

  lemma CountAfter(execs: map<Id, Exec>, id: Id, e: Exec, p: Exec -> bool)
    ensures |Those(execs[id := e], p)| == |Those(execs, p)| - One(id in execs && p(execs[id])) + One(p(e))
  {
    assert Those(execs, p) - {id} == Those(execs[id := e], p) - {id};
    CountOne(Those(execs, p), Those(execs[id := e], p), id);
  }

  // ----- one step

  lemma MovedIsCoherent(e: Exec, a: Action)
    requires Coherent(e) && CommitsRight(e) && Ready(e, a)
    ensures Coherent(Moved(e, a)) && CommitsRight(Moved(e, a))
  {
    if IsWorker(a) {
      WorkerIsCoherent(e, a);
      WorkerCommitsRight(e, a);
    } else {
      CoroutineIsCoherent(e, a);
    }
  }

  /** The actions of the worker thread. */
  predicate IsWorker(a: Action) {
    || a.Start? || a.CheckFirst? || a.StatementDone? || a.FetchChunk? || a.FetchDone? || a.Raise? || a.Decide?
    || a.Commit? || a.LoseCommit? || a.RecordResult? || a.Pop? || a.Exit?
  }

  /** The worker moves on from one unfinished position to another, until it is done. */
  lemma WorkerIsCoherent(e: Exec, a: Action)
    requires Coherent(e) && Ready(e, a) && IsWorker(a)
    ensures Coherent(Moved(e, a))
  {
    var f := Moved(e, a);
    assert e.job.Unfinished() && f.job.Submitted();
    assert f == e.(job := f.job, committed := f.committed, lost := f.lost);
  }

  /** A position with an outcome and its commit. */
  lemma WorkerCommitsRight(e: Exec, a: Action)
    requires CommitsRight(e) && Ready(e, a) && IsWorker(a)
    ensures CommitsRight(Moved(e, a))
  {
    match a
    case CheckFirst =>
    case FetchChunk =>
    case Raise =>
    case Decide =>
    case Commit =>
    case LoseCommit =>
    case RecordResult(_) =>
    case Pop =>
    case Exit =>
    case _ =>
  }

  lemma CoroutineIsCoherent(e: Exec, a: Action)
    requires Coherent(e) && CommitsRight(e) && Ready(e, a) && !IsWorker(a)
    ensures Coherent(Moved(e, a)) && CommitsRight(Moved(e, a))
  {
    match a
    case Submit =>
    case Return =>
    case Release =>
    case _ =>
  }

  lemma MovedIsRecorded(e: Exec, a: Action, r: Record, now: nat)
    requires Coherent(e) && Ready(e, a) && Recorded(e, r)
    ensures Recorded(Moved(e, a), if WriteOf(e, a).Some? then Updated(r, WriteOf(e, a).value, now) else r)
  {
    if WriteOf(e, a).Some? {
      WritingIsRecorded(e, a, r, now);
    } else {
      QuietIsRecorded(e, a, r);
    }
  }

  lemma WritingIsRecorded(e: Exec, a: Action, r: Record, now: nat)
    requires Coherent(e) && Ready(e, a) && Recorded(e, r) && WriteOf(e, a).Some?
    ensures Recorded(Moved(e, a), Updated(r, WriteOf(e, a).value, now))
  {
    match a
    case RecordRefusal(_) =>
    case MarkRunning =>
    case RecordTimeout(_) =>
    case RecordResult(_) =>
    case RecordCancel =>
  }

  lemma QuietIsRecorded(e: Exec, a: Action, r: Record)
    requires Coherent(e) && Ready(e, a) && Recorded(e, r) && WriteOf(e, a).None?
    ensures Recorded(Moved(e, a), r)
  {
    QuietKeepsSettled(e, a);
    var f := Moved(e, a);
    assert f.owner == e.owner;
    assert (f.task == Marked || f.job.Submitted()) <==> (e.task == Marked || e.job.Submitted());
  }

  /** Without a status written, an execution is settled as before. */
  lemma QuietKeepsSettled(e: Exec, a: Action)
    requires Coherent(e) && Ready(e, a) && WriteOf(e, a).None?
    ensures var f := Moved(e, a);
            && (Settled(f) <==> Settled(e)) && (f.job.HasRecorded() <==> e.job.HasRecorded())
            && (e.job.HasRecorded() ==> f.job.outcome == e.job.outcome)
            && (WasRefused(f.task) <==> WasRefused(e.task))
            && (f.task == Ended(RaisedTimeout) <==> e.task == Ended(RaisedTimeout))
  {
  }

  lemma SettledStays(e: Exec, a: Action)
    requires Coherent(e) && Ready(e, a) && Settled(e)
    ensures Settled(Moved(e, a))
  {
  }

  lemma MovedContexts(e: Exec, a: Action, contexts: set<Id>, id: Id)
    requires Coherent(e) && Ready(e, a) && (id in contexts <==> InContexts(e))
    ensures id in ContextsAfter(contexts, id, a) <==> InContexts(Moved(e, a))
  {
  }

  /** How an action changes what its execution holds. */
  lemma MovedPermits(e: Exec, a: Action)
    requires Coherent(e) && Ready(e, a)
    ensures forall free :: GlobalAfter(free, a) + One(WaitsForOwner(Moved(e, a))) + One(HasSlots(Moved(e, a)))
                           == free + One(WaitsForOwner(e)) + One(HasSlots(e))
    ensures Moved(e, a).owner == e.owner
  {
  }

  lemma StepKeepsGlobal(cfg: Config, execs: map<Id, Exec>, free: int, id: Id, a: Action)
    requires id in execs && Coherent(execs[id]) && Ready(execs[id], a)
    requires 0 <= free && (a == AcquireGlobal ==> free > 0)
    requires free + |Those(execs, WaitsForOwner)| + |Those(execs, HasSlots)| == cfg.maxGlobal
    ensures var after := execs[id := Moved(execs[id], a)];
            && 0 <= GlobalAfter(free, a)
            && GlobalAfter(free, a) + |Those(after, WaitsForOwner)| + |Those(after, HasSlots)| == cfg.maxGlobal
  {
    var e := execs[id];
    MovedPermits(e, a);
    CountAfter(execs, id, Moved(e, a), WaitsForOwner);
    CountAfter(execs, id, Moved(e, a), HasSlots);
    assert GlobalAfter(free, a) + One(WaitsForOwner(Moved(e, a))) + One(HasSlots(Moved(e, a)))
           == free + One(WaitsForOwner(e)) + One(HasSlots(e));
  }

  /** How an action changes the permits of its own owner. */
  lemma MovedSlots(e: Exec, a: Action)
    requires Coherent(e) && Ready(e, a)
    ensures Moved(e, a).owner == e.owner
    ensures Moved(e, a).slots == (if a == AcquireOwner then true else if a == Release then false else e.slots)
    ensures (a == AcquireOwner ==> !e.slots) && (a == Release ==> e.slots)
    ensures a == AcquireOwner || a == Release ==> e.task != Inserted
  {
    match a
    case AcquireOwner =>
    case Release =>
    case _ =>
  }

  /** What an action changes in the permits of an owner. */
  lemma MovedOwner(cfg: Config, ownerFree: map<Owner, int>, e: Exec, a: Action, owner: Owner)
    requires cfg.Valid() && Coherent(e) && Ready(e, a) && (e.task != Inserted ==> e.owner in ownerFree)
    requires a == AcquireOwner ==> e.owner in ownerFree && ownerFree[e.owner] > 0
    requires owner in ownerFree ==> 0 <= ownerFree[owner]
    ensures var free := if owner in ownerFree then ownerFree[owner] else cfg.maxOwner;
            var after := OwnersAfter(cfg, ownerFree, e.owner, a);
            var left := if owner in after then after[owner] else cfg.maxOwner;
            && 0 <= left
            && left + One(SlotsOf(owner)(Moved(e, a))) == free + One(SlotsOf(owner)(e))
  {
    MovedSlots(e, a);
  }

  lemma StepKeepsOwner(cfg: Config, s: State, id: Id, a: Action, owner: Owner)
    requires cfg.Valid() && PermitsConserved(cfg, s) && id in s.execs
    requires Coherent(s.execs[id]) && Ready(s.execs[id], a)
    requires s.execs[id].task != Inserted ==> s.execs[id].owner in s.ownerFree
    requires a == AcquireOwner ==> Free(cfg, s, s.execs[id].owner) > 0
    ensures var after := Step(cfg, s, id, a);
            && 0 <= Free(cfg, after, owner)
            && Free(cfg, after, owner) + |Those(after.execs, SlotsOf(owner))| == cfg.maxOwner
  {
    var e := s.execs[id];
    assert 0 <= Free(cfg, s, owner) && Free(cfg, s, owner) + |Those(s.execs, SlotsOf(owner))| == cfg.maxOwner;
    MovedOwner(cfg, s.ownerFree, e, a, owner);
    CountAfter(s.execs, id, Moved(e, a), SlotsOf(owner));
  }

  lemma StepKeepsPermits(cfg: Config, s: State, id: Id, a: Action)
    requires cfg.Valid() && PermitsConserved(cfg, s) && id in s.execs
    requires Coherent(s.execs[id]) && Ready(s.execs[id], a)
    requires s.execs[id].task != Inserted ==> s.execs[id].owner in s.ownerFree
    requires (a == AcquireGlobal ==> s.globalFree > 0) && (a == AcquireOwner ==> Free(cfg, s, s.execs[id].owner) > 0)
    ensures PermitsConserved(cfg, Step(cfg, s, id, a))
  {
    StepKeepsGlobal(cfg, s.execs, s.globalFree, id, a);
    var after := Step(cfg, s, id, a);
    forall owner ensures 0 <= Free(cfg, after, owner)
                         && Free(cfg, after, owner) + |Those(after.execs, SlotsOf(owner))| == cfg.maxOwner
    {
      StepKeepsOwner(cfg, s, id, a, owner);
    }
  }

  lemma StepKeepsThreads(cfg: Config, s: State, id: Id, a: Action)
    requires id in s.execs && Ready(s.execs[id], a)
    requires |Those(s.execs, OnThread)| <= cfg.Workers()
    requires a == Start ==> |Those(s.execs, OnThread)| < cfg.Workers()
    ensures |Those(s.execs[id := Moved(s.execs[id], a)], OnThread)| <= cfg.Workers()
  {
    CountAfter(s.execs, id, Moved(s.execs[id], a), OnThread);
  }

  lemma StepKeepsHistory(cfg: Config, s: State, id: Id, a: Action)
    requires id in s.execs && Possible(cfg, s, id, a)
    requires |Terminals(s.history)| <= cfg.historySize
    ensures var after := HistoryAfter(cfg, s, id, s.execs[id], a);
            && |Terminals(after)| <= cfg.historySize && after.Keys <= s.history.Keys
            && (forall k | k in after && k != id :: after[k] == s.history[k])
            && (forall k | k in s.history && k !in after && k != id :: s.history[k].status.Terminal())
            && (id in after ==> after[id] == RecordAfter(s.execs[id], a, s.history[id], s.now))
            && (id in s.history && id !in after ==> RecordAfter(s.execs[id], a, s.history[id], s.now).status.Terminal())
  {
    match WriteOf(s.execs[id], a)
    case None =>
    case Some(w) => ApplyIsMonotone(s.history, id, w, s.now, cfg.historySize, OrderOf(a));
  }

  function RecordAfter(e: Exec, a: Action, r: Record, now: nat): Record {
    if WriteOf(e, a).Some? then Updated(r, WriteOf(e, a).value, now) else r
  }

  lemma RecordStaysRight(e: Exec, a: Action, before: Option<Record>, after: Option<Record>, now: nat)
    requires Coherent(e) && Ready(e, a)
    requires if before.Some? then Recorded(e, before.value) else Settled(e)
    requires after.Some? ==> before.Some? && after.value == RecordAfter(e, a, before.value, now)
    requires before.Some? && after.None? ==> RecordAfter(e, a, before.value, now).status.Terminal()
    ensures if after.Some? then Recorded(Moved(e, a), after.value) else Settled(Moved(e, a))
  {
    if before.Some? {
      MovedIsRecorded(e, a, before.value, now);
    } else {
      SettledStays(e, a);
    }
  }

  function Find(t: Table, id: Id): Option<Record> {
    if id in t then Some(t[id]) else None
  }

  lemma StepKeepsOwn(cfg: Config, s: State, id: Id, a: Action)
    requires Inv(cfg, s) && id in s.execs && Ready(s.execs[id], a) && Possible(cfg, s, id, a)
    ensures Local(Step(cfg, s, id, a), id)
  {
    var e := s.execs[id];
    assert Local(s, id);
    StepKeepsHistory(cfg, s, id, a);
    var after := HistoryAfter(cfg, s, id, e, a);
    RecordStaysRight(e, a, Find(s.history, id), Find(after, id), s.now);
    MovedIsCoherent(e, a);
    MovedContexts(e, a, s.contexts, id);
    OwnerStaysKnown(cfg, s.ownerFree, e, a);
  }

  lemma OwnerStaysKnown(cfg: Config, ownerFree: map<Owner, int>, e: Exec, a: Action)
    requires Coherent(e) && Ready(e, a) && (e.task != Inserted ==> e.owner in ownerFree)
    ensures Moved(e, a).owner == e.owner
    ensures Moved(e, a).task != Inserted ==> e.owner in OwnersAfter(cfg, ownerFree, e.owner, a)
  {
    MovedSlots(e, a);
    if e.task == Inserted {
      MovedStaysInserted(e, a);
    }
    OwnersOnlyGrow(cfg, ownerFree, e.owner, a);
  }

  lemma MovedStaysInserted(e: Exec, a: Action)
    requires Coherent(e) && Ready(e, a) && e.task == Inserted
    ensures Moved(e, a).task == Inserted || a == Register
  {
    assert e.job == Absent;
    match a
    case Register =>
    case _ =>
  }

  lemma OwnersOnlyGrow(cfg: Config, ownerFree: map<Owner, int>, owner: Owner, a: Action)
    ensures ownerFree.Keys <= OwnersAfter(cfg, ownerFree, owner, a).Keys
    ensures a == Register ==> owner in OwnersAfter(cfg, ownerFree, owner, a)
  {
  }

  lemma StepKeepsOther(cfg: Config, s: State, id: Id, a: Action, k: Id)
    requires Inv(cfg, s) && id in s.execs && Ready(s.execs[id], a) && Possible(cfg, s, id, a)
    requires k in s.execs && k != id
    ensures Local(Step(cfg, s, id, a), k)
  {
    assert Local(s, k);
    StepKeepsHistory(cfg, s, id, a);
  }

  lemma StepKeeps(cfg: Config, s: State, id: Id, a: Action)
    requires cfg.Valid() && Inv(cfg, s) && Enabled(cfg, s, Act(id, a))
    ensures Inv(cfg, Step(cfg, s, id, a))
  {
    StepKeepsLocal(cfg, s, id, a);
    StepKeepsRest(cfg, s, id, a);
  }

  lemma StepKeepsLocal(cfg: Config, s: State, id: Id, a: Action)
    requires Inv(cfg, s) && id in s.execs && Ready(s.execs[id], a) && Possible(cfg, s, id, a)
    ensures var after := Step(cfg, s, id, a);
            forall k | k in after.execs :: Local(after, k)
  {
    var after := Step(cfg, s, id, a);
    forall k | k in after.execs ensures Local(after, k) {
      if k == id {
        StepKeepsOwn(cfg, s, id, a);
      } else {
        StepKeepsOther(cfg, s, id, a, k);
      }
    }
  }

  lemma StepKeepsRest(cfg: Config, s: State, id: Id, a: Action)
    requires cfg.Valid() && Inv(cfg, s) && id in s.execs && Ready(s.execs[id], a) && Possible(cfg, s, id, a)
    ensures var after := Step(cfg, s, id, a);
            && PermitsConserved(cfg, after)
            && |Those(after.execs, OnThread)| <= cfg.Workers() && |Terminals(after.history)| <= cfg.historySize
            && after.contexts <= after.execs.Keys && after.history.Keys <= after.execs.Keys
  {
    StepKeepsPermits(cfg, s, id, a);
    StepKeepsThreads(cfg, s, id, a);
    StepKeepsTables(cfg, s, id, a);
  }

  lemma StepKeepsTables(cfg: Config, s: State, id: Id, a: Action)
    requires Inv(cfg, s) && id in s.execs && Ready(s.execs[id], a) && Possible(cfg, s, id, a)
    ensures var after := Step(cfg, s, id, a);
            && |Terminals(after.history)| <= cfg.historySize
            && after.contexts <= after.execs.Keys && after.history.Keys <= after.execs.Keys
  {
    assert Local(s, id);
    StepKeepsHistory(cfg, s, id, a);
  }

  lemma InsertKeepsPermits(cfg: Config, s: State, id: Id, owner: Owner, writes: bool)
    requires PermitsConserved(cfg, s) && id !in s.execs
    ensures PermitsConserved(cfg, Next(cfg, s, Insert(id, owner, writes)))
  {
    var e := Exec(owner, writes, Inserted, Absent, false, false, false, false);
    var after := Next(cfg, s, Insert(id, owner, writes));
    CountAfter(s.execs, id, e, WaitsForOwner);
    CountAfter(s.execs, id, e, HasSlots);
    forall o ensures 0 <= Free(cfg, after, o) && Free(cfg, after, o) + |Those(after.execs, SlotsOf(o))| == cfg.maxOwner {
      CountAfter(s.execs, id, e, SlotsOf(o));
      assert Free(cfg, s, o) + |Those(s.execs, SlotsOf(o))| == cfg.maxOwner;
    }
  }

  lemma InsertKeeps(cfg: Config, s: State, id: Id, owner: Owner, writes: bool)
    requires Inv(cfg, s) && id !in s.execs
    ensures Inv(cfg, Next(cfg, s, Insert(id, owner, writes)))
  {
    var after := Next(cfg, s, Insert(id, owner, writes));
    InsertKeepsPermits(cfg, s, id, owner, writes);
    InsertKeepsCounts(cfg, s, id, owner, writes);
    forall k | k in after.execs ensures Local(after, k) {
      InsertKeepsLocal(cfg, s, id, owner, writes, k);
    }
  }

  lemma InsertKeepsCounts(cfg: Config, s: State, id: Id, owner: Owner, writes: bool)
    requires id !in s.execs && s.history.Keys <= s.execs.Keys
    ensures var after := Next(cfg, s, Insert(id, owner, writes));
            && |Those(after.execs, OnThread)| == |Those(s.execs, OnThread)|
            && Terminals(after.history) == Terminals(s.history)
            && after.contexts == s.contexts && after.history.Keys == s.history.Keys + {id}
            && after.execs.Keys == s.execs.Keys + {id}
  {
    var e := Exec(owner, writes, Inserted, Absent, false, false, false, false);
    CountAfter(s.execs, id, e, OnThread);
  }

  lemma InsertKeepsLocal(cfg: Config, s: State, id: Id, owner: Owner, writes: bool, k: Id)
    requires id !in s.execs && (k in s.execs || k == id)
    requires s.contexts <= s.execs.Keys && s.history.Keys <= s.execs.Keys
    requires k in s.execs ==> Local(s, k)
    ensures var after := Next(cfg, s, Insert(id, owner, writes));
            k in after.execs && Local(after, k)
  {
  }

  lemma TickKeeps(cfg: Config, s: State)
    requires Inv(cfg, s)
    ensures Inv(cfg, s.(now := s.now + 1))
  {
    var after := s.(now := s.now + 1);
    forall k | k in after.execs ensures Local(after, k) {
      assert Local(s, k);
    }
    assert PermitsConserved(cfg, after) by {
      forall owner ensures 0 <= Free(cfg, after, owner)
                           && Free(cfg, after, owner) + |Those(after.execs, SlotsOf(owner))| == cfg.maxOwner
      {
        assert 0 <= Free(cfg, s, owner) && Free(cfg, s, owner) + |Those(s.execs, SlotsOf(owner))| == cfg.maxOwner;
      }
    }
  }

  lemma NextKeeps(cfg: Config, s: State, ev: Event)
    requires cfg.Valid() && Inv(cfg, s)
    ensures Inv(cfg, Next(cfg, s, ev))
  {
    if Enabled(cfg, s, ev) {
      match ev
      case Tick => TickKeeps(cfg, s);
      case Insert(id, owner, writes) => InsertKeeps(cfg, s, id, owner, writes);
      case Act(id, a) => StepKeeps(cfg, s, id, a);
    }
  }

  lemma {:induction false} RunKeeps(cfg: Config, s: State, events: seq<Event>)
    requires cfg.Valid() && Inv(cfg, s)
    ensures Inv(cfg, Run(cfg, s, events))
    decreases |events|
  {
    if events != [] {
      NextKeeps(cfg, s, events[0]);
      RunKeeps(cfg, Next(cfg, s, events[0]), events[1..]);
    }
  }

  lemma InitialHolds(cfg: Config)
    requires cfg.Valid()
    ensures Inv(cfg, Initial(cfg))
  {
    var s := Initial(cfg);
    assert Those(s.execs, WaitsForOwner) == {} && Those(s.execs, HasSlots) == {} && Those(s.execs, OnThread) == {};
    assert Terminals(s.history) == {};
    forall owner ensures Those(s.execs, SlotsOf(owner)) == {} {
    }
  }

  /** The invariant holds in every reachable state. */
  lemma {:induction false} InvHolds(cfg: Config, events: seq<Event>)
    requires cfg.Valid()
    ensures Inv(cfg, Run(cfg, Initial(cfg), events))
  {
    InitialHolds(cfg);
    RunKeeps(cfg, Initial(cfg), events);
  }
}

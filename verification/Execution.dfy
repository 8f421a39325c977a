/** The execution protocol as a transition system. Coroutines, worker threads, timeouts and
    cancellations interleave over two levels of permits, the history table and the cancel event of
    each execution; any enabled step may come next. */
module Execution {
  import opened Wrappers
  import opened History

  type Owner = nat

  datatype Config = Config(maxGlobal: nat, maxOwner: nat, poolSize: nat, overflow: nat, historySize: nat) {
    predicate Valid() {
      0 < maxGlobal && 0 < maxOwner && 0 < poolSize && 0 < overflow && 0 < historySize
    }

    /** The size of the thread pool. */
    function Workers(): nat {
      var workers := if maxGlobal < poolSize + overflow then maxGlobal else poolSize + overflow;
      if workers < 1 then 1 else workers
    }
  }

  datatype Outcome = Succeeded | CanceledByFlag | Error

  datatype Ending = Returned | RaisedCanceled | RaisedError | RaisedTimeout | RaisedCapacity

  /** Where the coroutine that serves the request is. */
  datatype Task =
    | Inserted | Registered | HoldsGlobal | Refused | RefusalRecorded | Admitted | Marked
    | Awaiting | Expired | ExpiredCanceled | Ended(ending: Ending)

  /** Where the worker thread is. From `Finished` on the database work is over. */
  datatype Job =
    | Absent | Pending | Entered | Executing | Fetching | Deciding | Passed
    | Finished(outcome: Outcome) | Recorded(outcome: Outcome) | Popped(outcome: Outcome) | Done(outcome: Outcome)
  {
    predicate HasOutcome() {
      Finished? || Recorded? || Popped? || Done?
    }

    /** Its final status has been written, or found already written. */
    predicate HasRecorded() {
      Recorded? || Popped? || Done?
    }

    predicate Submitted() {
      !Absent?
    }

    predicate Unfinished() {
      !Absent? && !Done?
    }

    /** A thread of the pool runs it. */
    predicate OnThread() {
      Unfinished() && !Pending?
    }
  }

  /** `writes` holds of executions that end in a commit: neither a GET nor a trial run. `lost` marks a
      commit that took effect although the execution raised. */
  datatype Exec = Exec(
    owner: Owner, writes: bool, task: Task, job: Job, slots: bool, canceled: bool, committed: bool, lost: bool)

  datatype State = State(
    globalFree: int, ownerFree: map<Owner, int>, execs: map<Id, Exec>, contexts: set<Id>, history: Table, now: nat)

  datatype Action =
    // the coroutine
    | Register | AcquireGlobal | GlobalTimeout | AcquireOwner | OwnerTimeout
    | RecordRefusal(order: seq<Id>) | DropRefused | MarkRunning | Submit
    | Return | Expire | CancelExpired | RecordTimeout(order: seq<Id>) | Release
    // the worker
    | Start | CheckFirst | StatementDone | FetchChunk | FetchDone | Raise | Decide
    | Commit | LoseCommit | RecordResult(order: seq<Id>) | Pop | Exit
    // another request, or the watcher of a disconnected client
    | Cancel | RecordCancel

  datatype Event =
    | Tick
    | Insert(id: Id, owner: Owner, writes: bool)
    | Act(id: Id, action: Action)

  function Initial(cfg: Config): State {
    State(cfg.maxGlobal, map[], map[], {}, map[], 0)
  }

  function StatusOf(outcome: Outcome): Status {
    match outcome
    case Succeeded => Completed
    case CanceledByFlag => Canceled
    case Error => Failed
  }

  function EndingOf(outcome: Outcome): Ending {
    match outcome
    case Succeeded => Returned
    case CanceledByFlag => RaisedCanceled
    case Error => RaisedError
  }

  function Free(cfg: Config, s: State, owner: Owner): int {
    if owner in s.ownerFree then s.ownerFree[owner] else cfg.maxOwner
  }

  function Those(execs: map<Id, Exec>, p: Exec -> bool): set<Id> {
    set id | id in execs && p(execs[id])
  }

  predicate OnThread(e: Exec) {
    e.job.OnThread()
  }

  /** Whether the position of the coroutine and the worker permits an action. */
  predicate Ready(e: Exec, a: Action) {
    match a
    case Register => e.task == Inserted
    case AcquireGlobal => e.task == Registered
    case GlobalTimeout => e.task == Registered
    case AcquireOwner => e.task == HoldsGlobal
    case OwnerTimeout => e.task == HoldsGlobal
    case RecordRefusal(_) => e.task == Refused
    case DropRefused => e.task == RefusalRecorded
    case MarkRunning => e.task == Admitted
    case Submit => e.task == Marked
    case Return => e.task == Awaiting && e.job.Done?
    case Expire => e.task == Awaiting
    case CancelExpired => e.task == Expired
    case RecordTimeout(_) => e.task == ExpiredCanceled
    case Release => e.job.Done? && e.slots
    case Start => e.job == Pending
    case CheckFirst => e.job == Entered
    case StatementDone => e.job == Executing
    case FetchChunk => e.job == Fetching
    case FetchDone => e.job == Fetching
    case Raise => e.job in {Entered, Executing, Fetching, Deciding, Passed}
    case Decide => e.job == Deciding
    case Commit => e.job == Passed
    case LoseCommit => e.job == Passed
    case RecordResult(_) => e.job.Finished?
    case Pop => e.job.Recorded?
    case Exit => e.job.Popped?
    case Cancel => e.task != Inserted
    case RecordCancel => true
  }

  /** The execution after an action. */
  function Moved(e: Exec, a: Action): Exec {
    match a
    case Register => e.(task := Registered)
    case AcquireGlobal => e.(task := HoldsGlobal)
    case GlobalTimeout => e.(task := Refused)
    case AcquireOwner => e.(task := Admitted, slots := true)
    case OwnerTimeout => e.(task := Refused)
    case RecordRefusal(_) => e.(task := RefusalRecorded)
    case DropRefused => e.(task := Ended(RaisedCapacity))
    case MarkRunning => e.(task := Marked)
    case Submit => e.(task := Awaiting, job := Pending)
    case Return => e.(task := Ended(if e.job.Done? then EndingOf(e.job.outcome) else RaisedError))
    case Expire => e.(task := Expired)
    case CancelExpired => e.(task := ExpiredCanceled, canceled := true)
    case RecordTimeout(_) => e.(task := Ended(RaisedTimeout))
    case Release => e.(slots := false)
    case Start => e.(job := Entered)
    case CheckFirst => e.(job := if e.canceled then Finished(CanceledByFlag) else Executing)
    case StatementDone => e.(job := Fetching)
    case FetchChunk => e.(job := if e.canceled then Finished(CanceledByFlag) else Fetching)
    case FetchDone => e.(job := Deciding)
    case Raise => e.(job := Finished(Error))
    case Decide =>
      e.(job := if !e.writes then Finished(Succeeded) else if e.canceled then Finished(CanceledByFlag) else Passed)
    case Commit => e.(job := Finished(Succeeded), committed := true)
    case LoseCommit => e.(job := Finished(Error), committed := true, lost := true)
    case RecordResult(_) => e.(job := Recorded(if e.job.HasOutcome() then e.job.outcome else Error))
    case Pop => e.(job := Popped(if e.job.HasOutcome() then e.job.outcome else Error))
    case Exit => e.(job := Done(if e.job.HasOutcome() then e.job.outcome else Error))
    case Cancel => e.(canceled := true)
    case RecordCancel => e
  }

  /** The status an action writes. */
  function WriteOf(e: Exec, a: Action): Option<Write> {
    match a
    case RecordRefusal(_) => Some(Write(Failed, false, false))
    case MarkRunning => Some(Write(Running, true, false))
    case RecordTimeout(_) => Some(Write(TimedOut, false, true))
    case RecordResult(_) => Some(Write(StatusOf(if e.job.HasOutcome() then e.job.outcome else Error), false, true))
    case RecordCancel => Some(Write(CancelRequested, false, false))
    case _ => None
  }

  function OrderOf(a: Action): seq<Id> {
    match a
    case RecordRefusal(order) => order
    case RecordTimeout(order) => order
    case RecordResult(order) => order
    case _ => []
  }

  /** Whether permits, threads and the table allow the action. */
  ghost predicate Possible(cfg: Config, s: State, id: Id, a: Action)
    requires id in s.execs
  {
    var e := s.execs[id];
    && (a == AcquireGlobal ==> s.globalFree > 0)
    && (a == AcquireOwner ==> Free(cfg, s, e.owner) > 0)
    && (a == Start ==> |Those(s.execs, OnThread)| < cfg.Workers())
    && (WriteOf(e, a).Some? ==> CanApply(s.history, id, WriteOf(e, a).value, s.now, OrderOf(a)))
  }

  function GlobalAfter(free: int, a: Action): int {
    if a == AcquireGlobal then free - 1
    else if a == OwnerTimeout || a == Release then free + 1
    else free
  }

  function OwnersAfter(cfg: Config, free: map<Owner, int>, owner: Owner, a: Action): map<Owner, int> {
    if a == Register then if owner in free then free else free[owner := cfg.maxOwner]
    else if owner !in free then free
    else if a == AcquireOwner then free[owner := free[owner] - 1]
    else if a == Release then free[owner := free[owner] + 1]
    else free
  }

  function ContextsAfter(contexts: set<Id>, id: Id, a: Action): set<Id> {
    if a == Register then contexts + {id}
    else if a == DropRefused || a == Pop then contexts - {id}
    else contexts
  }

  function HistoryAfter(cfg: Config, s: State, id: Id, e: Exec, a: Action): Table {
    match WriteOf(e, a)
    case None => s.history
    case Some(w) => Apply(s.history, id, w, s.now, cfg.historySize, OrderOf(a))
  }

  function Step(cfg: Config, s: State, id: Id, a: Action): State
    requires id in s.execs
  {
    var e := s.execs[id];
    State(GlobalAfter(s.globalFree, a), OwnersAfter(cfg, s.ownerFree, e.owner, a), s.execs[id := Moved(e, a)],
          ContextsAfter(s.contexts, id, a), HistoryAfter(cfg, s, id, e, a), s.now)
  }

  ghost predicate Enabled(cfg: Config, s: State, ev: Event) {
    match ev
    case Tick => true
    case Insert(id, _, _) => id !in s.execs
    case Act(id, a) => id in s.execs && Ready(s.execs[id], a) && Possible(cfg, s, id, a)
  }

  function NewRecord(s: State, owner: Owner): Record {
    Record(owner, Queued, s.now, None, None)
  }

  /** One event; an event that is not enabled changes nothing. */
  ghost function Next(cfg: Config, s: State, ev: Event): State {
    if !Enabled(cfg, s, ev) then s
    else
      match ev
      case Tick => s.(now := s.now + 1)
      case Insert(id, owner, writes) =>
        s.(execs := s.execs[id := Exec(owner, writes, Inserted, Absent, false, false, false, false)],
           history := s.history[id := NewRecord(s, owner)])
      case Act(id, a) => Step(cfg, s, id, a)
  }

  ghost function Run(cfg: Config, s: State, events: seq<Event>): State
    decreases |events|
  {
    if events == [] then s else Run(cfg, Next(cfg, s, events[0]), events[1..])
  }

  lemma {:induction false} RunAppend(cfg: Config, s: State, first: seq<Event>, rest: seq<Event>)
    ensures Run(cfg, s, first + rest) == Run(cfg, Run(cfg, s, first), rest)
    decreases |first|
  {
    if first == [] {
      assert first + rest == rest;
    } else {
      assert (first + rest)[0] == first[0] && (first + rest)[1..] == first[1..] + rest;
      RunAppend(cfg, Next(cfg, s, first[0]), first[1..], rest);
    }
  }
}

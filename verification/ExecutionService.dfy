/** The execution service: the pieces of code that run without yielding, each one event of the
    protocol. */
module ExecutionService {
  import opened Wrappers
  import opened History
  import opened Execution
  import opened ExecutionInvariant

  datatype CancelReply = NotFound | AlreadyFinished(status: Status) | Requested

  class Service {
    const cfg: Config
    var globalFree: int
    var ownerFree: map<Owner, int>
    var execs: map<Id, Exec>
    var contexts: set<Id>
    var history: Table
    var now: nat

    constructor (cfg: Config)
      ensures this.cfg == cfg && View() == Initial(cfg)
    {
      this.cfg := cfg;
      globalFree := cfg.maxGlobal;
      ownerFree := map[];
      execs := map[];
      contexts := {};
      history := map[];
      now := 0;
    }

    function View(): State
      reads this
    {
      State(globalFree, ownerFree, execs, contexts, history, now)
    }

    method InsertRecord(id: Id, owner: Owner, writes: bool)
      requires id !in execs
      modifies this
      ensures View() == Next(cfg, old(View()), Insert(id, owner, writes))
    {
      execs := execs[id := Exec(owner, writes, Inserted, Absent, false, false, false, false)];
      history := history[id := Record(owner, Queued, now, None, None)];
    }

    /** Makes the execution known, and its owner's semaphore exist. */
    method Register(id: Id)
      requires id in execs && execs[id].task == Inserted
      modifies this
      ensures View() == Next(cfg, old(View()), Act(id, Action.Register))
    {
      var e := execs[id];
      contexts := contexts + {id};
      if e.owner !in ownerFree {
        ownerFree := ownerFree[e.owner := cfg.maxOwner];
      }
      execs := execs[id := e.(task := Registered)];
    }

    /** One attempt at the global permit, which fails while there is none. */
    method AcquireGlobal(id: Id) returns (taken: bool)
      requires id in execs && execs[id].task == Registered
      modifies this
      ensures taken <==> old(globalFree) > 0
      ensures View() == Next(cfg, old(View()), Act(id, Action.AcquireGlobal))
    {
      taken := globalFree > 0;
      if taken {
        globalFree := globalFree - 1;
        execs := execs[id := execs[id].(task := HoldsGlobal)];
      }
    }

    method AcquireOwner(id: Id) returns (taken: bool)
      requires id in execs && execs[id].task == HoldsGlobal && execs[id].owner in ownerFree
      modifies this
      ensures taken <==> old(ownerFree[execs[id].owner]) > 0
      ensures View() == Next(cfg, old(View()), Act(id, Action.AcquireOwner))
    {
      var e := execs[id];
      taken := ownerFree[e.owner] > 0;
      if taken {
        ownerFree := ownerFree[e.owner := ownerFree[e.owner] - 1];
        execs := execs[id := e.(task := Admitted, slots := true)];
      }
    }

    /** Gives the global permit back when the owner's did not come in time. */
    method OwnerTimedOut(id: Id)
      requires id in execs && execs[id].task == HoldsGlobal
      modifies this
      ensures View() == Next(cfg, old(View()), Act(id, OwnerTimeout))
    {
      globalFree := globalFree + 1;
      execs := execs[id := execs[id].(task := Refused)];
    }

    /** The callback of a worker that is done. A second call does nothing. */
    method Release(id: Id)
      requires id in execs && execs[id].job.Done?
      modifies this
      ensures View() == Next(cfg, old(View()), Act(id, Action.Release))
    {
      var e := execs[id];
      if !e.slots {
        return;
      }
      globalFree := globalFree + 1;
      if e.owner in ownerFree {
        ownerFree := ownerFree[e.owner := ownerFree[e.owner] + 1];
      }
      execs := execs[id := e.(slots := false)];
    }

    /** Updates an unfinished record, then trims; `order` is the order in which the table is read. */
    method SetStatus(id: Id, w: Write, order: seq<Id>) returns (changed: bool)
      requires CanApply(history, id, w, now, order)
      modifies this`history
      ensures history == Apply(old(history), id, w, now, cfg.historySize, order)
      ensures changed <==> id in old(history) && !old(history)[id].status.Terminal()
    {
      changed := id in history && !history[id].status.Terminal();
      if changed {
        var r := history[id];
        history := history[id := r.(status := w.status,
                                    started := if w.starts && r.started.None? then Some(now) else r.started,
                                    finished := if w.finishes then Some(now) else r.finished)];
      }
      if w.status.Terminal() {
        history := history - Excess(order, cfg.historySize);
      }
    }

    method MarkRunning(id: Id)
      requires id in execs && execs[id].task == Admitted
      modifies this
      ensures View() == Next(cfg, old(View()), Act(id, Action.MarkRunning))
    {
      execs := execs[id := execs[id].(task := Marked)];
      var _ := SetStatus(id, Write(Running, true, false), []);
    }

    /** The worker records how it ended. */
    method RecordResult(id: Id, order: seq<Id>)
      requires id in execs && execs[id].job.Finished?
      requires CanApply(history, id, Write(StatusOf(execs[id].job.outcome), false, true), now, order)
      modifies this
      ensures View() == Next(cfg, old(View()), Act(id, Action.RecordResult(order)))
    {
      var outcome := execs[id].job.outcome;
      execs := execs[id := execs[id].(job := Job.Recorded(outcome))];
      var _ := SetStatus(id, Write(StatusOf(outcome), false, true), order);
    }

    /** The worker forgets the context on its way out. */
    method Pop(id: Id)
      requires id in execs && execs[id].job.Recorded?
      modifies this
      ensures View() == Next(cfg, old(View()), Act(id, Action.Pop))
    {
      contexts := contexts - {id};
      execs := execs[id := execs[id].(job := Popped(execs[id].job.outcome))];
    }

    /** The coroutine cancels, records and reports an execution that ran out of time. */
    method TimeOut(id: Id, order: seq<Id>)
      requires id in execs && execs[id].task == Expired
      requires CanApply(history, id, Write(TimedOut, false, true), now, order)
      modifies this
      ensures View() == Run(cfg, old(View()), [Act(id, CancelExpired), Act(id, RecordTimeout(order))])
    {
      TimeOutSteps(cfg, View(), id, order);
      execs := execs[id := execs[id].(canceled := true, task := ExpiredCanceled)];
      execs := execs[id := execs[id].(task := Ended(RaisedTimeout))];
      var _ := SetStatus(id, Write(TimedOut, false, true), order);
    }

    /** Sets the cancel event of a context that is still known, then records the request. */
    method CancelUnfinished(id: Id)
      requires id in contexts ==> id in execs
      modifies this
      ensures View() == old(View()).(
                execs := if id in old(contexts) then old(execs)[id := old(execs)[id].(canceled := true)] else old(execs),
                history := Apply(old(history), id, Write(CancelRequested, false, false), old(now), cfg.historySize, []))
    {
      if id in contexts {
        execs := execs[id := execs[id].(canceled := true)];
      }
      var _ := SetStatus(id, Write(CancelRequested, false, false), []);
    }

    /** A request to cancel, from the owner or an administrator. */
    method RequestCancel(id: Id, owner: Owner, isAdmin: bool) returns (reply: CancelReply)
      requires id in history ==> id in execs && Local(View(), id)
      modifies this
      ensures reply == if id !in old(history) || (!isAdmin && old(history)[id].owner != owner) then NotFound
                       else if old(history)[id].status.Terminal() then AlreadyFinished(old(history)[id].status)
                       else Requested
      ensures View() == if !reply.Requested? then old(View())
                        else Run(cfg, old(View()), [Act(id, Cancel), Act(id, RecordCancel)])
    {
      if id !in history || (!isAdmin && history[id].owner != owner) {
        return NotFound;
      }
      if history[id].status.Terminal() {
        return AlreadyFinished(history[id].status);
      }
      CancelSteps(cfg, View(), id);
      CancelUnfinished(id);
      return Requested;
    }
  }

  lemma {:induction false} RunTwo(cfg: Config, s: State, a: Event, b: Event)
    ensures Run(cfg, s, [a, b]) == Next(cfg, Next(cfg, s, a), b)
  {
    var t := Next(cfg, s, a);
    assert [a, b][0] == a && [a, b][1..] == [b];
    assert Run(cfg, s, [a, b]) == Run(cfg, t, [b]);
    assert [b][0] == b && [b][1..] == [];
    assert Run(cfg, t, [b]) == Run(cfg, Next(cfg, t, b), []);
  }

  lemma {:induction false} TimeOutSteps(cfg: Config, s: State, id: Id, order: seq<Id>)
    requires id in s.execs && s.execs[id].task == Expired
    requires CanApply(s.history, id, Write(TimedOut, false, true), s.now, order)
    ensures Run(cfg, s, [Act(id, CancelExpired), Act(id, RecordTimeout(order))])
            == s.(execs := s.execs[id := s.execs[id].(canceled := true, task := Ended(RaisedTimeout))],
                  history := Apply(s.history, id, Write(TimedOut, false, true), s.now, cfg.historySize, order))
  {
    RunTwo(cfg, s, Act(id, CancelExpired), Act(id, RecordTimeout(order)));
    var middle := s.(execs := s.execs[id := s.execs[id].(canceled := true, task := ExpiredCanceled)]);
    assert Next(cfg, s, Act(id, CancelExpired)) == middle;
    assert middle.execs[id := Moved(middle.execs[id], RecordTimeout(order))]
           == s.execs[id := s.execs[id].(canceled := true, task := Ended(RaisedTimeout))];
  }

  lemma CancelStep(cfg: Config, s: State, id: Id)
    requires id in s.execs && (id in s.contexts <==> s.execs[id].task != Inserted)
    ensures Next(cfg, s, Act(id, Cancel))
            == if id in s.contexts then s.(execs := s.execs[id := s.execs[id].(canceled := true)]) else s
  {
  }

  lemma RecordCancelStep(cfg: Config, s: State, id: Id)
    requires id in s.execs
    ensures Next(cfg, s, Act(id, RecordCancel))
            == s.(history := Apply(s.history, id, Write(CancelRequested, false, false), s.now, cfg.historySize, []))
  {
    assert s.execs[id := Moved(s.execs[id], RecordCancel)] == s.execs;
  }

  /** An unfinished execution without a context is one that is not registered yet. */
  lemma {:induction false} CancelSteps(cfg: Config, s: State, id: Id)
    requires id in s.history && !s.history[id].status.Terminal() && id in s.execs && Local(s, id)
    ensures Run(cfg, s, [Act(id, Cancel), Act(id, RecordCancel)])
            == s.(execs := if id in s.contexts then s.execs[id := s.execs[id].(canceled := true)] else s.execs,
                  history := Apply(s.history, id, Write(CancelRequested, false, false), s.now, cfg.historySize, []))
  {
    var middle := if id in s.contexts then s.(execs := s.execs[id := s.execs[id].(canceled := true)]) else s;
    RunTwo(cfg, s, Act(id, Cancel), Act(id, RecordCancel));
    CancelStep(cfg, s, id);
    RecordCancelStep(cfg, middle, id);
  }
}

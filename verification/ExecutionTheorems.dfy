/** What holds in every reachable state of the execution protocol, and over every run of it. */
module ExecutionTheorems {
  import opened Wrappers
  import opened History
  import opened Execution
  import opened ExecutionInvariant

  // ----- permits and threads

  predicate IsUnfinished(e: Exec) {
    e.job.Unfinished()
  }

  function UnfinishedOf(owner: Owner): Exec -> bool {
    (e: Exec) => e.job.Unfinished() && e.owner == owner
  }

  lemma FewerThose(execs: map<Id, Exec>, p: Exec -> bool, q: Exec -> bool)
    requires forall id | id in execs :: p(execs[id]) ==> q(execs[id])
    ensures |Those(execs, p)| <= |Those(execs, q)|
  {
    FewerElements(Those(execs, p), Those(execs, q));
  }

  /** Main result. No permit is lost or made up: the free global permits, those held while waiting for
      the owner's and those of admitted executions always add up to the configured number, and so do
      the free and the held permits of every owner. Submitted workers that are not done never exceed
      either limit, since each holds its permits until then, and threads never exceed the connections. */
  lemma {:induction false} PermitsAreConserved(cfg: Config, events: seq<Event>)
    requires cfg.Valid()
    ensures var s := Run(cfg, Initial(cfg), events);
            && 0 <= s.globalFree
            && s.globalFree + |Those(s.execs, WaitsForOwner)| + |Those(s.execs, HasSlots)| == cfg.maxGlobal
            && (forall owner :: Free(cfg, s, owner) + |Those(s.execs, SlotsOf(owner))| == cfg.maxOwner)
            && (forall id | id in s.execs && s.execs[id].job.Unfinished() :: s.execs[id].slots)
            && |Those(s.execs, IsUnfinished)| <= cfg.maxGlobal
            && (forall owner :: |Those(s.execs, UnfinishedOf(owner))| <= cfg.maxOwner)
            && |Those(s.execs, OnThread)| <= cfg.poolSize + cfg.overflow
  {
    var s := Run(cfg, Initial(cfg), events);
    InvHolds(cfg, events);
    forall id | id in s.execs && s.execs[id].job.Unfinished() ensures s.execs[id].slots {
      assert Local(s, id);
    }
    FewerThose(s.execs, IsUnfinished, HasSlots);
    forall owner ensures |Those(s.execs, UnfinishedOf(owner))| <= cfg.maxOwner {
      FewerThose(s.execs, UnfinishedOf(owner), SlotsOf(owner));
      assert 0 <= Free(cfg, s, owner) && Free(cfg, s, owner) + |Those(s.execs, SlotsOf(owner))| == cfg.maxOwner;
    }
  }

  /** A submitted worker waits exactly while every connection has its thread: the global permits never
      make it wait, and with as many connections as global permits it never waits. */
  lemma {:induction false} SubmittedWorkersStart(cfg: Config, events: seq<Event>, id: Id)
    requires cfg.Valid()
    requires var s := Run(cfg, Initial(cfg), events); id in s.execs && s.execs[id].job == Pending
    ensures var s := Run(cfg, Initial(cfg), events);
            Enabled(cfg, s, Act(id, Start)) <==> |Those(s.execs, OnThread)| < cfg.poolSize + cfg.overflow
    ensures cfg.maxGlobal <= cfg.poolSize + cfg.overflow ==> Enabled(cfg, Run(cfg, Initial(cfg), events), Act(id, Start))
  {
    InvHolds(cfg, events);
    StartsIff(cfg, Run(cfg, Initial(cfg), events), id);
  }

  lemma StartsIff(cfg: Config, s: State, id: Id)
    requires cfg.Valid() && Inv(cfg, s) && id in s.execs && s.execs[id].job == Pending
    ensures Enabled(cfg, s, Act(id, Start)) <==> |Those(s.execs, OnThread)| < cfg.poolSize + cfg.overflow
    ensures |Those(s.execs, OnThread)| < cfg.maxGlobal
  {
    PermitsLeaveRoom(cfg, s, id);
    StartNeedsThread(cfg, s, id);
  }

  lemma StartNeedsThread(cfg: Config, s: State, id: Id)
    requires id in s.execs && s.execs[id].job == Pending
    ensures Enabled(cfg, s, Act(id, Start)) <==> |Those(s.execs, OnThread)| < cfg.Workers()
  {
    assert WriteOf(s.execs[id], Start).None?;
  }

  lemma PermitsLeaveRoom(cfg: Config, s: State, id: Id)
    requires Inv(cfg, s) && id in s.execs && s.execs[id].job == Pending
    ensures |Those(s.execs, OnThread)| < cfg.maxGlobal
  {
    forall k | k in s.execs ensures s.execs[k].job.Unfinished() ==> s.execs[k].slots {
      assert Local(s, k);
    }
    WaitingLeavesRoom(s, id);
  }

  lemma WaitingLeavesRoom(s: State, id: Id)
    requires id in s.execs && s.execs[id].job == Pending
    requires forall k | k in s.execs :: s.execs[k].job.Unfinished() ==> s.execs[k].slots
    ensures |Those(s.execs, OnThread)| < |Those(s.execs, HasSlots)|
  {
    FewerElements(Those(s.execs, OnThread) + {id}, Those(s.execs, HasSlots));
  }

  /** It is done and holds no permit. */
  predicate GaveBack(e: Exec) {
    e.job.Done? && !e.slots && !BeforeSubmit(e.task)
  }

  lemma MovedGaveBack(e: Exec, a: Action)
    requires GaveBack(e) && Ready(e, a)
    ensures GaveBack(Moved(e, a)) && a != Release && a != AcquireGlobal && a != OwnerTimeout
  {
  }

  /** Permits are given back once: an execution that has given them back never holds or returns one
      again. */
  lemma {:induction false} PermitsAreGivenBackOnce(cfg: Config, s: State, id: Id, events: seq<Event>)
    requires id in s.execs && GaveBack(s.execs[id])
    ensures var t := Run(cfg, s, events); id in t.execs && GaveBack(t.execs[id]) && !Enabled(cfg, t, Act(id, Release))
    decreases |events|
  {
    if events != [] {
      var ev := events[0];
      if ev.Act? && ev.id == id && Ready(s.execs[id], ev.action) {
        MovedGaveBack(s.execs[id], ev.action);
      }
      PermitsAreGivenBackOnce(cfg, Next(cfg, s, ev), id, events[1..]);
    }
  }

  // ----- the history

  /** How one event may change what is known of an execution. */
  ghost predicate HistoryGrows(before: State, after: State, id: Id) {
    && (id in before.execs ==> id in after.execs)
    && (id in before.execs && id !in before.history ==> id !in after.history)
    && (id in before.history && id in after.history ==>
          && after.history[id].created == before.history[id].created
          && (before.history[id].status.Terminal() ==> after.history[id] == before.history[id])
          && (before.history[id].started.Some? ==> after.history[id].started == before.history[id].started))
  }

  lemma NextGrowsHistory(cfg: Config, s: State, ev: Event, id: Id)
    requires Inv(cfg, s)
    ensures HistoryGrows(s, Next(cfg, s, ev), id)
  {
    if ev.Act? && Enabled(cfg, s, ev) {
      StepKeepsHistory(cfg, s, ev.id, ev.action);
    }
  }

  /** Main result. Whatever races, a finished execution keeps its status, its times and everything
      else in its record until it is purged; a start time is set once; a purged record does not come
      back. */
  lemma {:induction false} FinishedIsFinal(cfg: Config, s: State, events: seq<Event>, id: Id)
    requires cfg.Valid() && Inv(cfg, s)
    ensures HistoryGrows(s, Run(cfg, s, events), id)
    decreases |events|
  {
    if events != [] {
      NextGrowsHistory(cfg, s, events[0], id);
      NextKeeps(cfg, s, events[0]);
      FinishedIsFinal(cfg, Next(cfg, s, events[0]), events[1..], id);
    }
  }

  /** Main result. The history holds at most the configured number of finished executions, and every
      execution that is not finished; whatever a trim removes is no newer than any finished execution
      it keeps. */
  lemma {:induction false} HistoryIsBounded(cfg: Config, events: seq<Event>, ev: Event)
    requires cfg.Valid()
    ensures var s := Run(cfg, Initial(cfg), events);
            var after := Next(cfg, s, ev);
            && |Terminals(s.history)| <= cfg.historySize
            && (forall id | id in s.execs && !Settled(s.execs[id]) :: id in s.history)
            && (forall out, kept | out in s.history && out !in after.history && kept in Terminals(after.history) ::
                  after.history[kept].created >= s.history[out].created)
  {
    var s := Run(cfg, Initial(cfg), events);
    InvHolds(cfg, events);
    forall id | id in s.execs && !Settled(s.execs[id]) ensures id in s.history {
      assert Local(s, id);
    }
    if ev.Act? && Enabled(cfg, s, ev) {
      TrimIsFair(cfg, s, ev.id, ev.action);
    }
  }

  lemma TrimIsFair(cfg: Config, s: State, id: Id, a: Action)
    requires id in s.execs && Possible(cfg, s, id, a)
    ensures var after := HistoryAfter(cfg, s, id, s.execs[id], a);
            forall out, kept | out in s.history && out !in after && kept in Terminals(after) ::
              after[kept].created >= s.history[out].created
  {
    match WriteOf(s.execs[id], a)
    case None =>
    case Some(w) => ApplyIsFair(s.history, id, w, s.now, cfg.historySize, OrderOf(a));
  }

  lemma ApplyIsFair(t: Table, id: Id, w: Write, now: nat, size: nat, order: seq<Id>)
    requires CanApply(t, id, w, now, order)
    ensures var after := Apply(t, id, w, now, size, order);
            forall out, kept | out in t && out !in after && kept in Terminals(after) ::
              after[kept].created >= t[out].created
  {
    var updated := Update(t, id, w, now);
    assert updated.Keys == t.Keys && forall k | k in t :: updated[k].created == t[k].created;
    if w.status.Terminal() {
      TrimKeepsNewest(updated, size, order);
      var after := updated - Excess(order, size);
      forall out, kept | out in t && out !in after && kept in Terminals(after)
        ensures after[kept].created >= t[out].created
      {
        assert kept in Terminals(updated) - Excess(order, size) && out in Excess(order, size);
        assert updated[kept].created >= updated[out].created;
      }
    }
  }

  // ----- what a status says

  /** Main result. What is recorded, and what the caller is told, is true of the execution. */
  lemma {:induction false} StatusIsTruthful(cfg: Config, events: seq<Event>, id: Id)
    requires cfg.Valid()
    requires id in Run(cfg, Initial(cfg), events).execs
    ensures var s := Run(cfg, Initial(cfg), events);
            var e := s.execs[id];
            && (id in s.history ==>
                  var status := s.history[id].status;
                  && (status == Completed ==> (e.committed <==> e.writes))
                  && (status == Canceled ==> !e.committed && e.canceled)
                  && (status == Failed ==> (e.committed <==> e.lost))
                  && (status == TimedOut ==> e.task == Ended(RaisedTimeout))
                  && (e.committed && !e.lost && e.job.HasRecorded() ==> status == Completed || status == TimedOut))
            && (e.task == Ended(Returned) ==>
                  (e.committed <==> e.writes) && (id in s.history ==> s.history[id].status == Completed))
            && (e.task == Ended(RaisedCanceled) ==>
                  !e.committed && e.canceled && (id in s.history ==> s.history[id].status == Canceled))
            && (e.task == Ended(RaisedError) ==>
                  (e.committed <==> e.lost) && (id in s.history ==> s.history[id].status == Failed))
            && (e.task == Ended(RaisedCapacity) ==>
                  e.job == Absent && !e.committed && (id in s.history ==> s.history[id].status == Failed))
  {
    InvHolds(cfg, events);
    assert Local(Run(cfg, Initial(cfg), events), id);
  }

  // ----- cancellation against commit

  /** Not committed, and the cancel event or a final outcome stands in the way of a commit. */
  predicate Barred(e: Exec) {
    !e.committed && e.job != Passed && (e.canceled || (e.job.HasOutcome() && !BeforeSubmit(e.task)))
  }

  lemma MovedBarred(e: Exec, a: Action)
    requires Barred(e) && Ready(e, a)
    ensures Barred(Moved(e, a))
  {
  }

  /** Main result. A cancel event set before the last check keeps the execution from committing, over
      every continuation, whatever its status says meanwhile. */
  lemma {:induction false} CancelPreventsCommit(cfg: Config, s: State, id: Id, events: seq<Event>)
    requires id in s.execs && Barred(s.execs[id])
    ensures var t := Run(cfg, s, events); id in t.execs && Barred(t.execs[id])
    decreases |events|
  {
    if events != [] {
      var ev := events[0];
      if ev.Act? && ev.id == id && Ready(s.execs[id], ev.action) {
        MovedBarred(s.execs[id], ev.action);
      }
      CancelPreventsCommit(cfg, Next(cfg, s, ev), id, events[1..]);
    }
  }
}

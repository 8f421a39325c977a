/** What becomes of an execution once its cancel event is set, whether it reads or writes. */
module CanceledRuns {
  import opened Wrappers
  import opened History
  import opened Execution
  import opened ExecutionInvariant
  import opened ExecutionProgress

  /** The statement has not been sent to the database. */
  predicate NotSent(e: Exec) {
    e.job in {Absent, Pending, Entered}
  }

  /** A check is still to come before it can succeed. */
  predicate BeforeCheck(e: Exec) {
    NotSent(e) || (e.writes && e.job in {Executing, Fetching, Deciding})
  }

  /** What is recorded of it, and what its caller is told, is never that it succeeded. */
  predicate NotSuccessful(s: State, id: Id) {
    && id in s.execs && !HasSucceeded(s.execs[id]) && s.execs[id].task != Ended(Returned)
    && (id in s.history ==> s.history[id].status != Completed)
  }

  lemma UnsuccessfulIsTold(s: State, id: Id)
    requires id in s.execs && Local(s, id) && !HasSucceeded(s.execs[id])
    ensures NotSuccessful(s, id)
  {
  }

  /** Main result. Once its cancel event is set, an execution whose statement has not been sent, or a
      write that has not passed the last check, never succeeds: over every continuation its outcome is
      not success, its record is not `completed`, and its caller is not given a result. */
  lemma CanceledNeverSucceeds(cfg: Config, s: State, id: Id, events: seq<Event>)
    requires cfg.Valid() && Inv(cfg, s) && id in s.execs && s.execs[id].canceled && BeforeCheck(s.execs[id])
    ensures NotSuccessful(Run(cfg, s, events), id)
  {
    NeverSucceeds(cfg, s, id, events);
    assert Local(Run(cfg, s, events), id);
    UnsuccessfulIsTold(Run(cfg, s, events), id);
  }

  /** Canceled, and not at work on its statement. */
  predicate Idles(e: Exec) {
    e.canceled && (NotSent(e) || (e.job.HasOutcome() && e.job.outcome != Succeeded))
  }

  lemma MovedIdles(e: Exec, a: Action)
    requires Idles(e) && Ready(e, a)
    ensures Idles(Moved(e, a))
  {
  }

  /** The statement of an execution canceled before its first check is never executed. */
  lemma {:induction false} CanceledIsNotSent(cfg: Config, s: State, id: Id, events: seq<Event>)
    requires id in s.execs && s.execs[id].canceled && Idles(s.execs[id])
    ensures var t := Run(cfg, s, events);
            id in t.execs && Idles(t.execs[id]) && t.execs[id].job !in {Executing, Fetching, Deciding, Passed}
    decreases |events|
  {
    if events != [] {
      var ev := events[0];
      if ev.Act? && ev.id == id && Ready(s.execs[id], ev.action) {
        MovedIdles(s.execs[id], ev.action);
      }
      CanceledIsNotSent(cfg, Next(cfg, s, ev), id, events[1..]);
    }
  }

  /** The checks of the worker: before the statement, before every chunk, and before a commit. */
  predicate IsCheck(e: Exec, a: Action) {
    a == CheckFirst || a == FetchChunk || (a == Decide && e.writes)
  }

  lemma MovedStaysCanceled(e: Exec, a: Action)
    requires e.canceled
    ensures Moved(e, a).canceled && Moved(e, a).writes == e.writes
  {
  }

  lemma {:induction false} StaysCanceled(cfg: Config, s: State, id: Id, events: seq<Event>)
    requires id in s.execs && s.execs[id].canceled
    ensures var t := Run(cfg, s, events); id in t.execs && t.execs[id].canceled
    decreases |events|
  {
    if events != [] {
      var ev := events[0];
      if ev.Act? && ev.id == id {
        MovedStaysCanceled(s.execs[id], ev.action);
      }
      StaysCanceled(cfg, Next(cfg, s, ev), id, events[1..]);
    }
  }

  /** Once the cancel event is set, whichever check comes next, and however much later, ends the work as
      canceled. */
  lemma NextCheckEndsWork(cfg: Config, s: State, id: Id, events: seq<Event>, a: Action)
    requires id in s.execs && s.execs[id].canceled
    requires var t := Run(cfg, s, events);
             id in t.execs && IsCheck(t.execs[id], a) && Enabled(cfg, t, Act(id, a))
    ensures var u := Next(cfg, Run(cfg, s, events), Act(id, a));
            id in u.execs && u.execs[id].job == Finished(CanceledByFlag)
  {
    StaysCanceled(cfg, s, id, events);
  }

  /** Where a check stands. */
  predicate StandsAt(e: Exec, a: Action) {
    (a == CheckFirst && e.job == Entered) || (a == FetchChunk && e.job == Fetching) || (a == Decide && e.job == Deciding)
  }

  /** Every check can be made where it stands, and decides by the cancel event alone: the work ends as
      canceled or goes on; only a read is not checked before it ends. */
  lemma CheckDecides(cfg: Config, s: State, id: Id, a: Action)
    requires id in s.execs && StandsAt(s.execs[id], a)
    ensures var e := s.execs[id];
            var t := Next(cfg, s, Act(id, a));
            && id in t.execs
            && t.execs[id].job == if e.canceled && IsCheck(e, a) then Finished(CanceledByFlag)
                                  else if a == CheckFirst then Executing
                                  else if a == FetchChunk then Fetching
                                  else if e.writes then Passed
                                  else Finished(Succeeded)
  {
    assert WriteOf(s.execs[id], a).None?;
    assert Enabled(cfg, s, Act(id, a));
  }
}

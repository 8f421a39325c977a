/** The times in the table of executions: each is that of the event that wrote it, and they are in
    order. */
module RecordTimes {
  import opened Wrappers
  import opened History
  import opened Execution
  import opened ExecutionInvariant

  /** A time that is set is that of the event; a time that was set does not move, and neither does the
      time of creation. */
  predicate Stamps(before: Record, after: Record, now: nat) {
    && after.created == before.created && after.owner == before.owner
    && (after.started == before.started || (before.started.None? && after.started == Some(now)))
    && (after.finished == before.finished || (before.finished.None? && after.finished == Some(now)))
  }

  lemma UpdateStamps(e: Exec, a: Action, r: Record, now: nat)
    requires Coherent(e) && Ready(e, a) && ExecutionInvariant.Recorded(e, r)
    ensures Stamps(r, RecordAfter(e, a, r, now), now)
  {
  }

  /** Main result, event by event: a record is created at the time of its insertion, and every later
      time in it is the time of the event that set it. */
  lemma TimesAreThoseOfEvents(cfg: Config, s: State, ev: Event, id: Id)
    requires cfg.Valid() && Inv(cfg, s) && id in Next(cfg, s, ev).history
    ensures var after := Next(cfg, s, ev).history[id];
            if id in s.history then Stamps(s.history[id], after, s.now)
            else ev.Insert? && ev.id == id && after == Record(ev.owner, Queued, s.now, None, None)
  {
    if ev.Insert? && Enabled(cfg, s, ev) {
      assert id in s.history ==> id in s.execs;
    }
    if ev.Act? && Enabled(cfg, s, ev) {
      StepKeepsHistory(cfg, s, ev.id, ev.action);
      assert Local(s, ev.id);
      if id == ev.id {
        UpdateStamps(s.execs[id], ev.action, s.history[id], s.now);
      }
    }
  }

  predicate AtMost(t: Option<nat>, bound: nat) {
    t.Some? ==> t.value <= bound
  }

  /** Created, started and finished in this order, and not later than now. */
  predicate InOrder(r: Record, now: nat) {
    && r.created <= now && AtMost(r.started, now) && AtMost(r.finished, now)
    && (r.started.Some? ==> r.created <= r.started.value)
    && (r.finished.Some? ==> r.created <= r.finished.value)
    && (r.started.Some? && r.finished.Some? ==> r.started.value <= r.finished.value)
  }

  ghost predicate AllInOrder(s: State) {
    forall id | id in s.history :: InOrder(s.history[id], s.now)
  }

  lemma StampedInOrder(e: Exec, a: Action, r: Record, now: nat)
    requires Coherent(e) && Ready(e, a) && ExecutionInvariant.Recorded(e, r) && InOrder(r, now)
    ensures InOrder(RecordAfter(e, a, r, now), now)
  {
  }

  /** The table after an action. */
  lemma StepInOrder(cfg: Config, s: State, id: Id, a: Action)
    requires id in s.execs && Local(s, id) && Ready(s.execs[id], a) && Possible(cfg, s, id, a)
    requires |Terminals(s.history)| <= cfg.historySize && AllInOrder(s)
    ensures AllInOrder(Step(cfg, s, id, a))
  {
    StepKeepsHistory(cfg, s, id, a);
    if id in s.history {
      StampedInOrder(s.execs[id], a, s.history[id], s.now);
    }
    TableInOrder(s.history, HistoryAfter(cfg, s, id, s.execs[id], a), id, s.now);
  }

  lemma TableInOrder(before: Table, after: Table, id: Id, now: nat)
    requires forall k | k in before :: InOrder(before[k], now)
    requires after.Keys <= before.Keys && forall k | k in after && k != id :: after[k] == before[k]
    requires id in after ==> InOrder(after[id], now)
    ensures forall k | k in after :: InOrder(after[k], now)
  {
  }

  lemma NextInOrder(cfg: Config, s: State, ev: Event)
    requires cfg.Valid() && Inv(cfg, s) && AllInOrder(s)
    ensures AllInOrder(Next(cfg, s, ev))
  {
    if Enabled(cfg, s, ev) {
      match ev
      case Tick =>
      case Insert(_, _, _) =>
      case Act(id, a) =>
        assert Local(s, id);
        StepInOrder(cfg, s, id, a);
    }
  }

  lemma {:induction false} RunInOrder(cfg: Config, s: State, events: seq<Event>)
    requires cfg.Valid() && Inv(cfg, s) && AllInOrder(s)
    ensures AllInOrder(Run(cfg, s, events))
    decreases |events|
  {
    if events != [] {
      NextInOrder(cfg, s, events[0]);
      NextKeeps(cfg, s, events[0]);
      RunInOrder(cfg, Next(cfg, s, events[0]), events[1..]);
    }
  }

  /** In every reachable state no execution starts before it was created, finishes before it started, or
      bears a time that has not come. */
  lemma TimesAreInOrder(cfg: Config, events: seq<Event>)
    requires cfg.Valid()
    ensures AllInOrder(Run(cfg, Initial(cfg), events))
  {
    InvHolds(cfg, []);
    RunInOrder(cfg, Initial(cfg), events);
  }
}

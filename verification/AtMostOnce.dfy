/** Idempotency keys and executions together: a route that writes begins a grant, launches an
    execution, and completes or abandons the grant by how the execution ended. */
module AtMostOnce {
  import opened Wrappers
  import opened IsoTime
  import H = History
  import E = Execution
  import Inv = ExecutionInvariant
  import X = ExecutionTheorems
  import I = Idempotency
  import T = IdempotencyTheorems
  import Endpoint

  /** `runs` gives the execution that a grant launched. */
  datatype State = State(exec: E.State, world: I.World, runs: map<nat, H.Id>)

  datatype Event =
    | Db(step: E.Event)
    | Advance(to: Time)
    | Ask(scope: I.Scope, payload: nat, expires: Time, newId: nat)
    | Launch(grant: nat, id: H.Id, owner: E.Owner)
    | Settle(grant: nat)
    | SettleUnrecorded(grant: nat)

  predicate IsOpen(s: State, g: nat) {
    g < |s.world.holders| && s.world.holders[g].phase == I.Open
  }

  /** The execution of a grant ended this way. */
  predicate EndedWith(s: State, g: nat, ending: E.Ending) {
    g in s.runs && s.runs[g] in s.exec.execs && s.exec.execs[s.runs[g]].task == E.Ended(ending)
  }

  /** The execution of a grant is over, or never came to be recorded. */
  predicate IsOver(s: State, g: nat) {
    g in s.runs && s.runs[g] in s.exec.execs ==> s.exec.execs[s.runs[g]].task.Ended?
  }

  /** What the endpoint sees: how the execution ended, or an error when there is none. */
  function EndingOf(s: State, g: nat): E.Ending {
    if g in s.runs && s.runs[g] in s.exec.execs && s.exec.execs[s.runs[g]].task.Ended?
    then s.exec.execs[s.runs[g]].task.ending else E.RaisedError
  }

  predicate Enabled(s: State, ev: Event) {
    match ev
    case Launch(g, id, _) => IsOpen(s, g) && g !in s.runs && id !in s.exec.execs
    case Settle(g) => IsOpen(s, g) && IsOver(s, g)
    case SettleUnrecorded(g) => IsOpen(s, g) && EndedWith(s, g, E.Returned)
    case _ => true
  }

  ghost function Next(cfg: E.Config, s: State, ev: Event): State {
    if !Enabled(s, ev) then s
    else
      match ev
      case Db(step) => s.(exec := E.Next(cfg, s.exec, step))
      case Advance(to) => s.(world := I.Next(s.world, I.Advance(to)))
      case Ask(scope, payload, expires, newId) => s.(world := I.Next(s.world, I.Ask(scope, payload, expires, newId)))
      case Launch(g, id, owner) => s.(exec := E.Next(cfg, s.exec, E.Insert(id, owner, true)), runs := s.runs[g := id])
      case Settle(g) => s.(world := I.Next(s.world, Endpoint.StepOf(g, EndingOf(s, g), false)))
      case SettleUnrecorded(g) => s.(world := I.Next(s.world, Endpoint.StepOf(g, EndingOf(s, g), true)))
  }

  function Initial(cfg: E.Config, now: Time, ttl: nat): State {
    State(E.Initial(cfg), I.Initial(now, ttl), map[])
  }

  ghost function Run(cfg: E.Config, s: State, events: seq<Event>): State
    decreases |events|
  {
    if events == [] then s else Run(cfg, Next(cfg, s, events[0]), events[1..])
  }

  // ----- what is asked of the environment

  predicate IsKeyed(s: State, id: H.Id) {
    exists g | g in s.runs :: s.runs[g] == id
  }

  /** A timeout strikes before the last check. */
  predicate TimeoutInTime(s: State, ev: Event) {
    ev.Db? && ev.step.Act? && ev.step.action == E.CancelExpired && IsKeyed(s, ev.step.id) && ev.step.id in s.exec.execs
    ==> !s.exec.execs[ev.step.id].committed && s.exec.execs[ev.step.id].job != E.Passed
  }

  /** A commit that raises did not take effect. */
  predicate CommitIsReported(s: State, ev: Event) {
    ev.Db? && ev.step.Act? && IsKeyed(s, ev.step.id) ==> ev.step.action != E.LoseCommit
  }

  /** A grant is settled before it expires. */
  predicate SettledInTime(s: State, ev: Event) {
    ev.Settle? && ev.grant < |s.world.holders| ==> !T.Lapsed(s.world.holders[ev.grant], Instant(s.world.now))
  }

  ghost predicate FairRun(cfg: E.Config, s: State, events: seq<Event>)
    decreases |events|
  {
    events == []
    || (TimeoutInTime(s, events[0]) && CommitIsReported(s, events[0]) && SettledInTime(s, events[0])
        && FairRun(cfg, Next(cfg, s, events[0]), events[1..]))
  }

  // ----- the invariant

  /** An execution launched under a key: a write whose commit is never lost, and which a timeout keeps
      from committing. */
  predicate Keyed(e: E.Exec) {
    e.writes && !e.lost && (e.task in {E.ExpiredCanceled, E.Ended(E.RaisedTimeout)} ==> X.Barred(e))
  }

  /** It has not committed and never will. */
  predicate Dead(e: E.Exec) {
    X.Barred(e) || e.task == E.Ended(E.RaisedCapacity)
  }

  predicate RunIsRight(s: State, g: nat)
    requires g in s.runs
  {
    && s.runs[g] in s.exec.execs && Keyed(s.exec.execs[s.runs[g]]) && g < |s.world.holders|
    && (s.world.holders[g].phase == I.Abandoned ==> Dead(s.exec.execs[s.runs[g]]))
  }

  ghost predicate Good(cfg: E.Config, s: State) {
    Inv.Inv(cfg, s.exec) && T.Inv(s.world) && forall g | g in s.runs :: RunIsRight(s, g)
  }

  lemma MovedKeyed(e: E.Exec, a: E.Action)
    requires Inv.Coherent(e) && Inv.CommitsRight(e) && E.Ready(e, a) && Keyed(e)
    requires a != E.LoseCommit && (a == E.CancelExpired ==> !e.committed && e.job != E.Passed)
    ensures Keyed(E.Moved(e, a))
  {
    if X.Barred(e) {
      X.MovedBarred(e, a);
    }
  }

  lemma MovedDead(e: E.Exec, a: E.Action)
    requires Inv.Coherent(e) && E.Ready(e, a) && Dead(e)
    ensures Dead(E.Moved(e, a))
  {
    if X.Barred(e) {
      X.MovedBarred(e, a);
    }
  }

  lemma DeadDidNotCommit(e: E.Exec)
    requires Inv.Coherent(e) && Inv.CommitsRight(e) && Dead(e)
    ensures !e.committed
  {
  }

  /** An execution that ended without returning is dead. */
  lemma UnreturnedIsDead(e: E.Exec)
    requires Inv.Coherent(e) && Inv.CommitsRight(e) && Keyed(e) && e.task.Ended? && e.task != E.Ended(E.Returned)
    ensures Dead(e)
  {
    match e.task.ending
    case RaisedCanceled => assert e.job.outcome == E.CanceledByFlag;
    case RaisedError => assert e.job.outcome == E.Error;
    case RaisedTimeout =>
    case RaisedCapacity =>
  }

  lemma {:induction false} DbKeeps(cfg: E.Config, s: State, step: E.Event)
    requires cfg.Valid() && Good(cfg, s) && TimeoutInTime(s, Db(step)) && CommitIsReported(s, Db(step))
    ensures Good(cfg, Next(cfg, s, Db(step)))
  {
    Inv.NextKeeps(cfg, s.exec, step);
    var after := Next(cfg, s, Db(step));
    forall g | g in after.runs ensures RunIsRight(after, g) {
      assert RunIsRight(s, g);
      var id := s.runs[g];
      if step.Act? && step.id == id && E.Enabled(cfg, s.exec, step) {
        assert Inv.Local(s.exec, id);
        var e := s.exec.execs[id];
        MovedKeyed(e, step.action);
        if Dead(e) {
          MovedDead(e, step.action);
        }
      }
    }
  }

  lemma {:induction false} LaunchKeeps(cfg: E.Config, s: State, g: nat, id: H.Id, owner: E.Owner)
    requires cfg.Valid() && Good(cfg, s) && Enabled(s, Launch(g, id, owner))
    ensures Good(cfg, Next(cfg, s, Launch(g, id, owner)))
  {
    Inv.NextKeeps(cfg, s.exec, E.Insert(id, owner, true));
    var after := Next(cfg, s, Launch(g, id, owner));
    forall k | k in after.runs ensures RunIsRight(after, k) {
      assert k != g ==> RunIsRight(s, k);
    }
  }

  /** Only giving up makes a grant abandoned. */
  lemma {:induction false} AbandonedBy(w: I.World, ev: I.Event)
    ensures |w.holders| <= |I.Next(w, ev).holders|
    ensures forall g | 0 <= g < |w.holders| && I.Next(w, ev).holders[g].phase == I.Abandoned ::
              w.holders[g].phase == I.Abandoned || ev == I.GiveUp(g)
  {
  }

  /** A step of the grants. */
  lemma {:induction false} GrantsKeep(cfg: E.Config, s: State, ev: I.Event)
    requires Good(cfg, s) && T.Timely(s.world, ev)
    requires ev.GiveUp? && ev.grant in s.runs ==>
               s.runs[ev.grant] in s.exec.execs && Dead(s.exec.execs[s.runs[ev.grant]])
    ensures Good(cfg, s.(world := I.Next(s.world, ev))) && I.Next(s.world, ev).ttl == s.world.ttl
  {
    T.NextKeeps(s.world, ev);
    AbandonedBy(s.world, ev);
    forall g | g in s.runs ensures RunIsRight(s.(world := I.Next(s.world, ev)), g) {
      assert RunIsRight(s, g);
    }
  }

  lemma {:induction false} SettleKeeps(cfg: E.Config, s: State, g: nat)
    requires Good(cfg, s) && Enabled(s, Settle(g)) && SettledInTime(s, Settle(g))
    ensures Good(cfg, Next(cfg, s, Settle(g))) && Next(cfg, s, Settle(g)).world.ttl == s.world.ttl
  {
    if EndedWith(s, g, E.Returned) {
      GrantsKeep(cfg, s, I.Succeed(g));
    } else {
      if g in s.runs {
        assert RunIsRight(s, g) && Inv.Local(s.exec, s.runs[g]);
        UnreturnedIsDead(s.exec.execs[s.runs[g]]);
      }
      GrantsKeep(cfg, s, I.GiveUp(g));
    }
  }

  lemma {:induction false} NextKeeps(cfg: E.Config, s: State, ev: Event)
    requires cfg.Valid() && Good(cfg, s)
    requires TimeoutInTime(s, ev) && CommitIsReported(s, ev) && SettledInTime(s, ev)
    ensures Good(cfg, Next(cfg, s, ev)) && Next(cfg, s, ev).world.ttl == s.world.ttl
  {
    if Enabled(s, ev) {
      match ev
      case Db(step) => DbKeeps(cfg, s, step);
      case Advance(to) => GrantsKeep(cfg, s, I.Advance(to));
      case Ask(scope, payload, expires, newId) => GrantsKeep(cfg, s, I.Ask(scope, payload, expires, newId));
      case Launch(g, id, owner) => LaunchKeeps(cfg, s, g, id, owner);
      case Settle(g) => SettleKeeps(cfg, s, g);
      case SettleUnrecorded(g) => GrantsKeep(cfg, s, I.SucceedUnrecorded(g));
    }
  }

  lemma {:induction false} RunKeeps(cfg: E.Config, s: State, events: seq<Event>)
    requires cfg.Valid() && Good(cfg, s) && FairRun(cfg, s, events)
    ensures Good(cfg, Run(cfg, s, events)) && Run(cfg, s, events).world.ttl == s.world.ttl
    decreases |events|
  {
    if events != [] {
      NextKeeps(cfg, s, events[0]);
      RunKeeps(cfg, Next(cfg, s, events[0]), events[1..]);
    }
  }

  /** How the execution of a request ended decides what becomes of its key: settled in time, the scope is
      free again at once if the execution did not return, and held until the record expires if it did. */
  lemma EndingDecides(cfg: E.Config, s: State, g: nat, clock: int)
    requires Good(cfg, s) && Enabled(s, Settle(g)) && SettledInTime(s, Settle(g)) && Instant(s.world.now) <= clock
    ensures var h := s.world.holders[g];
            T.Free(Next(cfg, s, Settle(g)).world.holders, h.scope, clock)
            <==> !EndedWith(s, g, E.Returned) || h.expires <= clock
  {
    T.SettlementDecides(s.world, g, clock);
  }

  predicate Committed(s: State, g: nat) {
    g in s.runs && s.runs[g] in s.exec.execs && s.exec.execs[s.runs[g]].committed
  }

  /** Main result. Over every interleaving of requests, workers, timeouts, cancellations, completions
      that fail and clocks, two grants of one scope whose executions both committed were made at least
      a lifetime apart: within one lifetime a scope commits once at most. */
  lemma {:induction false} CommitsAtMostOnce(cfg: E.Config, start: Time, ttl: nat, events: seq<Event>, i: nat, j: nat)
    requires cfg.Valid() && FairRun(cfg, Initial(cfg, start, ttl), events)
    requires var s := Run(cfg, Initial(cfg, start, ttl), events);
             && i < j < |s.world.holders| && s.world.holders[i].scope == s.world.holders[j].scope
             && Committed(s, i) && Committed(s, j)
    ensures var s := Run(cfg, Initial(cfg, start, ttl), events);
            s.world.holders[i].begun + ttl <= s.world.holders[j].begun
  {
    var s := Run(cfg, Initial(cfg, start, ttl), events);
    Inv.InitialHolds(cfg);
    RunKeeps(cfg, Initial(cfg, start, ttl), events);
    assert RunIsRight(s, i);
    var e := s.exec.execs[s.runs[i]];
    assert Inv.Local(s.exec, s.runs[i]);
    if Dead(e) {
      DeadDidNotCommit(e);
    }
    assert T.Separated(s.world.holders[i], s.world.holders[j]);
  }
}

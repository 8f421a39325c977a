/** Why at-most-once needs each of its conditions: without any one of them a scope commits twice within
    one lifetime. */
module AtMostOnceRaces {
  import opened Wrappers
  import opened IsoTime
  import H = History
  import E = Execution
  import R = ExecutionRaces
  import I = Idempotency
  import T = IdempotencyTheorems
  import opened AtMostOnce

  function Dbs(steps: seq<E.Event>): seq<Event>
    decreases |steps|
  {
    if steps == [] then [] else [Db(steps[0])] + Dbs(steps[1..])
  }

  lemma {:induction false} RunOne(cfg: E.Config, s: State, ev: Event, rest: seq<Event>)
    ensures Run(cfg, s, [ev] + rest) == Run(cfg, Next(cfg, s, ev), rest)
  {
    assert ([ev] + rest)[1..] == rest;
  }

  lemma {:induction false} RunDbs(cfg: E.Config, s: State, steps: seq<E.Event>, rest: seq<Event>)
    ensures Run(cfg, s, Dbs(steps) + rest) == Run(cfg, s.(exec := E.Run(cfg, s.exec, steps)), rest)
    decreases |steps|
  {
    if steps == [] {
      assert [] + rest == rest;
    } else {
      var more := Dbs(steps[1..]) + rest;
      assert Dbs(steps) + rest == [Db(steps[0])] + more;
      RunOne(cfg, s, Db(steps[0]), more);
      RunDbs(cfg, Next(cfg, s, Db(steps[0])), steps[1..], rest);
    }
  }

  /** Launching an execution and letting it run alone. */
  lemma {:induction false} RunLaunch(
    cfg: E.Config, s: State, g: nat, id: H.Id, owner: E.Owner, steps: seq<E.Event>, rest: seq<Event>)
    requires Enabled(s, Launch(g, id, owner)) && steps != [] && steps[0] == E.Insert(id, owner, true)
    ensures Run(cfg, s, [Launch(g, id, owner)] + (Dbs(steps[1..]) + rest))
            == Run(cfg, s.(exec := E.Run(cfg, s.exec, steps), runs := s.runs[g := id]), rest)
  {
    RunOne(cfg, s, Launch(g, id, owner), Dbs(steps[1..]) + rest);
    RunDbs(cfg, Next(cfg, s, Launch(g, id, owner)), steps[1..], rest);
  }

  lemma {:induction false} RunAsk(
    cfg: E.Config, s: State, scope: I.Scope, payload: nat, expires: Time, rest: seq<Event>)
    requires T.Usable(scope) && Instant(expires) == Instant(s.world.now) + s.world.ttl
    requires I.OnePerScope(s.world.table)
    requires forall id | id in s.world.table :: Instant(s.world.table[id].expiresAt) <= Instant(s.world.now)
    ensures var h := I.Holder(0, scope, payload, Instant(s.world.now), Instant(expires), I.Open);
            var row := I.Row(scope, payload, I.Status.Running, expires, |s.world.holders|);
            Run(cfg, s, [Ask(scope, payload, expires, 0)] + rest)
            == Run(cfg, s.(world := s.world.(table := map[0 := row], holders := s.world.holders + [h])), rest)
  {
    RunOne(cfg, s, Ask(scope, payload, expires, 0), rest);
    T.AskOfFreeScope(s.world, scope, payload, expires, 0);
  }

  /** The first grant is abandoned, because its execution did not return, or never was. */
  lemma {:induction false} RunAbandon(cfg: E.Config, s: State, rest: seq<Event>)
    requires |s.world.holders| > 0 && s.world.holders[0].phase == I.Open && s.world.holders[0].id == 0
    requires s.world.table.Keys == {0} && s.world.table[0].status == I.Status.Running
    requires IsOver(s, 0) && EndingOf(s, 0) != E.Returned
    ensures Run(cfg, s, [Settle(0)] + rest)
            == Run(cfg, s.(world := s.world.(table := map[],
                                             holders := s.world.holders[0 := s.world.holders[0].(phase := I.Abandoned)])), rest)
  {
    RunOne(cfg, s, Settle(0), rest);
    assert I.Abandon(s.world.table, 0) == map[];
  }

  lemma RoomAtFirst(cfg: E.Config, owner: E.Owner)
    requires cfg.Valid()
    ensures R.HasRoom(cfg, E.Initial(cfg), 0, owner)
  {
    assert E.Those(E.Initial(cfg).execs, E.OnThread) == {};
  }

  /** One execution that still holds its permits leaves room for another. */
  lemma RoomForAnother(cfg: E.Config, t: E.State, owner: E.Owner)
    requires cfg.Valid() && 2 <= cfg.maxGlobal && 2 <= cfg.maxOwner
    requires t.execs.Keys == {0} && t.globalFree == cfg.maxGlobal - 1
    requires t.ownerFree == map[owner := cfg.maxOwner - 1]
    ensures R.HasRoom(cfg, t, 1, owner)
  {
    assert E.Those(t.execs, E.OnThread) <= {0};
    H.FewerElements(E.Those(t.execs, E.OnThread), {0});
  }

  /** The grants of these runs. */
  function Grant(scope: I.Scope, payload: nat, start: Time, expires: Time): I.Holder {
    I.Holder(0, scope, payload, Instant(start), Instant(expires), I.Open)
  }

  function Granted(exec: E.State, scope: I.Scope, payload: nat, start: Time, expires: Time, ttl: nat): State {
    State(exec, I.World(map[0 := I.Row(scope, payload, I.Status.Running, expires, 0)],
                        [Grant(scope, payload, start, expires)], start, ttl), map[0 := 0])
  }

  lemma {:induction false} FirstCommit(
    cfg: E.Config, start: Time, expires: Time, ttl: nat, scope: I.Scope, payload: nat, owner: E.Owner,
    steps: seq<E.Event>, rest: seq<Event>)
    requires T.Usable(scope) && Instant(expires) == Instant(start) + ttl
    requires steps != [] && steps[0] == E.Insert(0, owner, true)
    ensures Run(cfg, Initial(cfg, start, ttl),
                [Ask(scope, payload, expires, 0)] + ([Launch(0, 0, owner)] + (Dbs(steps[1..]) + rest)))
            == Run(cfg, Granted(E.Run(cfg, E.Initial(cfg), steps), scope, payload, start, expires, ttl), rest)
  {
    var s0 := Initial(cfg, start, ttl);
    var h := Grant(scope, payload, start, expires);
    RunAsk(cfg, s0, scope, payload, expires, [Launch(0, 0, owner)] + (Dbs(steps[1..]) + rest));
    assert [] + [h] == [h];
    var s1 := Granted(s0.exec, scope, payload, start, expires, ttl).(runs := map[]);
    RunLaunch(cfg, s1, 0, 0, owner, steps, rest);
  }

  /** Its execution committed, but ended without returning. */
  predicate CommittedUnreturned(exec: E.State, id: H.Id) {
    id in exec.execs && exec.execs[id].committed && exec.execs[id].task.Ended? && exec.execs[id].task != E.Ended(E.Returned)
  }

  lemma {:induction false} SecondCommit(
    cfg: E.Config, exec: E.State, start: Time, expires: Time, ttl: nat, scope: I.Scope, payload: nat, owner: E.Owner,
    steps: seq<E.Event>)
    requires T.Usable(scope) && Instant(expires) == Instant(start) + ttl
    requires CommittedUnreturned(exec, 0) && 1 !in exec.execs
    requires steps != [] && steps[0] == E.Insert(1, owner, true)
    requires E.Run(cfg, exec, steps).execs
             == exec.execs[1 := R.Committing(owner).(job := E.Finished(E.Succeeded), committed := true)]
    ensures var h := Grant(scope, payload, start, expires);
            var s := Run(cfg, Granted(exec, scope, payload, start, expires, ttl),
                         [Settle(0)] + ([Ask(scope, payload, expires, 0)]
                                        + ([Launch(1, 1, owner)] + (Dbs(steps[1..]) + []))));
            && s.world.holders == [h.(phase := I.Abandoned), h]
            && Committed(s, 0) && Committed(s, 1)
  {
    var tail := [Launch(1, 1, owner)] + (Dbs(steps[1..]) + []);
    var s1 := Granted(exec, scope, payload, start, expires, ttl);
    var h := Grant(scope, payload, start, expires);
    RunAbandon(cfg, s1, [Ask(scope, payload, expires, 0)] + tail);
    assert [h][0 := h.(phase := I.Abandoned)] == [h.(phase := I.Abandoned)];
    var s2 := s1.(world := s1.world.(table := map[], holders := [h.(phase := I.Abandoned)]));
    RunAsk(cfg, s2, scope, payload, expires, tail);
    var s3 := s2.(world := s2.world.(table := map[0 := I.Row(scope, payload, I.Status.Running, expires, 1)],
                                     holders := [h.(phase := I.Abandoned)] + [h]));
    RunLaunch(cfg, s3, 1, 1, owner, steps, []);
  }

  /** Two executions of the scope committed, and their grants lie less than a lifetime apart. */
  predicate CommitsTwice(s: State, i: nat, j: nat, scope: I.Scope, ttl: nat) {
    && i < j < |s.world.holders| && s.world.holders[i].scope == s.world.holders[j].scope == scope
    && s.world.holders[j].begun < s.world.holders[i].begun + ttl
    && Committed(s, i) && Committed(s, j)
  }

  /** A first execution that commits without returning is followed by a second commit. */
  lemma {:induction false} CommitsAgain(
    cfg: E.Config, start: Time, expires: Time, ttl: nat, scope: I.Scope, payload: nat, owner: E.Owner,
    first: seq<E.Event>) returns (events: seq<Event>)
    requires cfg.Valid() && 2 <= cfg.maxGlobal && 2 <= cfg.maxOwner
    requires T.Usable(scope) && 0 < ttl && Instant(expires) == Instant(start) + ttl
    requires first != [] && first[0] == E.Insert(0, owner, true)
    requires var t := E.Run(cfg, E.Initial(cfg), first);
             && CommittedUnreturned(t, 0) && t.execs.Keys == {0}
             && t.globalFree == cfg.maxGlobal - 1 && t.ownerFree == map[owner := cfg.maxOwner - 1]
    ensures CommitsTwice(Run(cfg, Initial(cfg, start, ttl), events), 0, 1, scope, ttl)
  {
    var t := E.Run(cfg, E.Initial(cfg), first);
    RoomForAnother(cfg, t, owner);
    var again := R.NewWriteCanCommit(cfg, t, 1, owner);
    var tail := [Launch(1, 1, owner)] + (Dbs(again[1..]) + []);
    var retry := [Settle(0)] + ([Ask(scope, payload, expires, 0)] + tail);
    events := [Ask(scope, payload, expires, 0)] + ([Launch(0, 0, owner)] + (Dbs(first[1..]) + retry));
    FirstCommit(cfg, start, expires, ttl, scope, payload, owner, first, retry);
    SecondCommit(cfg, t, start, expires, ttl, scope, payload, owner, again);
  }

  /** Main result. When a timeout may strike after the last check, two executions of one scope commit
      within one lifetime, for every key, caller and lifetime. */
  lemma {:induction false} LateTimeoutCommitsTwice(
    cfg: E.Config, start: Time, expires: Time, ttl: nat, scope: I.Scope, payload: nat, owner: E.Owner)
    returns (events: seq<Event>)
    requires cfg.Valid() && 2 <= cfg.maxGlobal && 2 <= cfg.maxOwner
    requires T.Usable(scope) && 0 < ttl && Instant(expires) == Instant(start) + ttl
    ensures CommitsTwice(Run(cfg, Initial(cfg, start, ttl), events), 0, 1, scope, ttl)
  {
    RoomAtFirst(cfg, owner);
    var first := R.TimeoutHidesCommit(cfg, E.Initial(cfg), 0, owner);
    events := CommitsAgain(cfg, start, expires, ttl, scope, payload, owner, first);
  }

  /** The same when a commit may raise although it takes effect. */
  lemma {:induction false} LostCommitCommitsTwice(
    cfg: E.Config, start: Time, expires: Time, ttl: nat, scope: I.Scope, payload: nat, owner: E.Owner)
    returns (events: seq<Event>)
    requires cfg.Valid() && 2 <= cfg.maxGlobal && 2 <= cfg.maxOwner
    requires T.Usable(scope) && 0 < ttl && Instant(expires) == Instant(start) + ttl
    ensures CommitsTwice(Run(cfg, Initial(cfg, start, ttl), events), 0, 1, scope, ttl)
  {
    RoomAtFirst(cfg, owner);
    var first := R.LostCommitRaises(cfg, E.Initial(cfg), 0, owner);
    events := CommitsAgain(cfg, start, expires, ttl, scope, payload, owner, first);
  }

  // ----- a request that settles late

  function Holding(scope: I.Scope, payload: nat, begun: Time, expires: Time): I.Holder {
    I.Holder(0, scope, payload, Instant(begun), Instant(expires), I.Open)
  }

  /** A first scope has let its record expire; a second one has taken its number. */
  function Overtaken(
    start: Time, later: Time, last: Time, ttl: nat, first: I.Scope, second: I.Scope, payload: nat): I.World
  {
    I.World(map[0 := I.Row(second, payload, I.Status.Running, last, 1)],
            [Holding(first, payload, start, later), Holding(second, payload, later, last)], later, ttl)
  }

  lemma {:induction false} RunOvertaken(
    cfg: E.Config, start: Time, later: Time, last: Time, ttl: nat, first: I.Scope, second: I.Scope, payload: nat,
    rest: seq<Event>)
    requires T.Usable(first) && T.Usable(second)
    requires Instant(later) == Instant(start) + ttl && Instant(last) == Instant(later) + ttl
    ensures Run(cfg, Initial(cfg, start, ttl),
                [Ask(first, payload, later, 0)] + ([Advance(later)] + ([Ask(second, payload, last, 0)] + rest)))
            == Run(cfg, State(E.Initial(cfg), Overtaken(start, later, last, ttl, first, second, payload), map[]), rest)
  {
    var s0 := Initial(cfg, start, ttl);
    var h0, h1 := Holding(first, payload, start, later), Holding(second, payload, later, last);
    var ask := [Ask(second, payload, last, 0)] + rest;
    RunAsk(cfg, s0, first, payload, later, [Advance(later)] + ask);
    assert [] + [h0] == [h0] && [h0] + [h1] == [h0, h1];
    var s1 := s0.(world := s0.world.(table := map[0 := I.Row(first, payload, I.Status.Running, later, 0)], holders := [h0]));
    RunOne(cfg, s1, Advance(later), ask);
    RunAsk(cfg, s1.(world := s1.world.(now := later)), second, payload, last, rest);
  }

  /** The late request gives up, and the second scope is granted again. */
  lemma {:induction false} RunLateSettle(
    cfg: E.Config, exec: E.State, start: Time, later: Time, last: Time, ttl: nat,
    first: I.Scope, second: I.Scope, payload: nat, rest: seq<Event>)
    requires T.Usable(second) && Instant(last) == Instant(later) + ttl
    ensures var w := Overtaken(start, later, last, ttl, first, second, payload);
            var h := Holding(second, payload, later, last);
            Run(cfg, State(exec, w, map[1 := 0]), [Settle(0)] + ([Ask(second, payload, last, 0)] + rest))
            == Run(cfg, State(exec, w.(table := map[0 := I.Row(second, payload, I.Status.Running, last, 2)],
                                       holders := [w.holders[0].(phase := I.Abandoned), h, h]), map[1 := 0]), rest)
  {
    var w := Overtaken(start, later, last, ttl, first, second, payload);
    var h := Holding(second, payload, later, last);
    var s := State(exec, w, map[1 := 0]);
    RunAbandon(cfg, s, [Ask(second, payload, last, 0)] + rest);
    var left := [w.holders[0].(phase := I.Abandoned), h];
    assert w.holders[0 := w.holders[0].(phase := I.Abandoned)] == left;
    RunAsk(cfg, s.(world := w.(table := map[], holders := left)), second, payload, last, rest);
    assert left + [h] == [w.holders[0].(phase := I.Abandoned), h, h];
  }

  /** The same when a request may settle after its record has expired: one that never launched anything
      gives up late, and another scope commits twice. */
  lemma {:induction false} LateSettleCommitsTwice(
    cfg: E.Config, start: Time, later: Time, last: Time, ttl: nat, first: I.Scope, second: I.Scope, payload: nat,
    owner: E.Owner) returns (events: seq<Event>)
    requires cfg.Valid() && 2 <= cfg.maxGlobal && 2 <= cfg.maxOwner
    requires T.Usable(first) && T.Usable(second) && 0 < ttl
    requires Instant(later) == Instant(start) + ttl && Instant(last) == Instant(later) + ttl
    ensures CommitsTwice(Run(cfg, Initial(cfg, start, ttl), events), 1, 2, second, ttl)
  {
    var e0 := E.Initial(cfg);
    RoomAtFirst(cfg, owner);
    var once := R.NewWriteCanCommit(cfg, e0, 0, owner);
    var e1 := E.Run(cfg, e0, once);
    RoomForAnother(cfg, e1, owner);
    var again := R.NewWriteCanCommit(cfg, e1, 1, owner);
    var tail := [Launch(2, 1, owner)] + (Dbs(again[1..]) + []);
    var settle := [Settle(0)] + ([Ask(second, payload, last, 0)] + tail);
    var launch := [Launch(1, 0, owner)] + (Dbs(once[1..]) + settle);
    events := [Ask(first, payload, later, 0)] + ([Advance(later)] + ([Ask(second, payload, last, 0)] + launch));
    RunOvertaken(cfg, start, later, last, ttl, first, second, payload, launch);
    var w := Overtaken(start, later, last, ttl, first, second, payload);
    var h := Holding(second, payload, later, last);
    RunLaunch(cfg, State(e0, w, map[]), 1, 0, owner, once, settle);
    assert map[][1 := 0] == map[1 := 0];
    RunLateSettle(cfg, e1, start, later, last, ttl, first, second, payload, tail);
    var s := State(e1, w.(table := map[0 := I.Row(second, payload, I.Status.Running, last, 2)],
                          holders := [w.holders[0].(phase := I.Abandoned), h, h]), map[1 := 0]);
    RunLaunch(cfg, s, 2, 1, owner, again, []);
  }
}

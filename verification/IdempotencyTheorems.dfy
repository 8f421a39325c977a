/** Grants of the same scope are separated by an abandon or an expiry, whatever row numbers the
    database hands out, as long as a request settles before its record expires. */
module IdempotencyTheorems {
  import opened Wrappers
  import opened IsoTime
  import opened Idempotency

  predicate Lapsed(h: Holder, clock: int) {
    h.expires <= clock
  }

  /** A record and the request that made it agree. */
  predicate Owns(h: Holder, row: Row, id: nat) {
    && h.id == id && row.scope == h.scope && row.payload == h.payload && Instant(row.expiresAt) == h.expires
    && (row.status == Status.Completed <==> h.phase == Done)
    && h.phase != Abandoned
  }

  ghost predicate RowsHaveHolders(t: Table, holders: seq<Holder>) {
    forall id | id in t :: t[id].grant < |holders| && Owns(holders[t[id].grant], t[id], id)
  }

  /** Unless it was abandoned or has expired, the record of a grant is there and is its own. */
  predicate HasRow(t: Table, h: Holder, g: nat, clock: int) {
    h.phase == Abandoned || Lapsed(h, clock) || (h.id in t && t[h.id].grant == g)
  }

  ghost predicate HoldersHaveRows(t: Table, holders: seq<Holder>, clock: int) {
    forall g | 0 <= g < |holders| :: HasRow(t, holders[g], g, clock)
  }

  ghost predicate InTime(holders: seq<Holder>, clock: int, ttl: nat) {
    forall g | 0 <= g < |holders| :: holders[g].begun <= clock && holders[g].expires == holders[g].begun + ttl
  }

  /** The first grant was abandoned, or had expired when the second was made. */
  predicate Separated(first: Holder, second: Holder) {
    first.scope != second.scope || first.phase == Abandoned || Lapsed(first, second.begun)
  }

  ghost predicate AllSeparated(holders: seq<Holder>) {
    forall i, j | 0 <= i < j < |holders| :: Separated(holders[i], holders[j])
  }

  ghost predicate Inv(w: World) {
    var clock := Instant(w.now);
    && OnePerScope(w.table) && RowsHaveHolders(w.table, w.holders) && HoldersHaveRows(w.table, w.holders, clock)
    && InTime(w.holders, clock, w.ttl) && AllSeparated(w.holders)
  }

  /** A request that settles does so before its record expires. */
  predicate Timely(w: World, ev: Event) {
    (ev.Succeed? || ev.GiveUp?) && ev.grant < |w.holders| ==> !Lapsed(w.holders[ev.grant], Instant(w.now))
  }

  ghost predicate TimelyRun(w: World, events: seq<Event>)
    decreases |events|
  {
    events == [] || (Timely(w, events[0]) && TimelyRun(Next(w, events[0]), events[1..]))
  }

  lemma {:induction false} LiveRows(t: Table, now: Time, clock: int)
    requires clock == Instant(now)
    ensures forall id :: id in Live(t, now) <==> id in t && clock < Instant(t[id].expiresAt)
    ensures forall id | id in Live(t, now) :: Live(t, now)[id] == t[id]
  {
    forall id | id in t ensures Expired(t[id], now) <==> Instant(t[id].expiresAt) <= clock {
      TextOrderIsTimeOrder(t[id].expiresAt, now);
    }
  }

  /** Deleting the expired records. */
  lemma {:induction false} PurgeKeeps(t: Table, now: Time, holders: seq<Holder>, clock: int)
    requires clock == Instant(now)
    requires OnePerScope(t) && RowsHaveHolders(t, holders) && HoldersHaveRows(t, holders, clock)
    ensures var live := Live(t, now);
            OnePerScope(live) && RowsHaveHolders(live, holders) && HoldersHaveRows(live, holders, clock)
  {
    LiveRows(t, now, clock);
    var live := Live(t, now);
    forall g | 0 <= g < |holders| ensures HasRow(live, holders[g], g, clock) {
      assert HasRow(t, holders[g], g, clock);
    }
  }

  predicate Free(holders: seq<Holder>, scope: Scope, clock: int) {
    forall g | 0 <= g < |holders| && holders[g].scope == scope :: holders[g].phase == Abandoned || Lapsed(holders[g], clock)
  }

  lemma {:induction false} FoundIffTaken(t: Table, now: Time, holders: seq<Holder>, clock: int, scope: Scope)
    requires clock == Instant(now) && OnePerScope(t)
    requires RowsHaveHolders(t, holders) && HoldersHaveRows(t, holders, clock)
    ensures OnePerScope(Live(t, now))
    ensures Lookup(Live(t, now), scope).None? <==> Free(holders, scope, clock)
  {
    LiveRows(t, now, clock);
    var live := Live(t, now);
    match Lookup(live, scope)
    case None =>
      forall g | 0 <= g < |holders| && holders[g].scope == scope
        ensures holders[g].phase == Abandoned || Lapsed(holders[g], clock)
      {
        assert HasRow(t, holders[g], g, clock);
      }
    case Some(id) =>
      var h := holders[t[id].grant];
      assert Owns(h, t[id], id);
      assert h.scope == scope && h.phase != Abandoned && !Lapsed(h, clock);
  }

  /** One to two hundred characters, without line breaks and tabs. */
  predicate WellFormed(key: string) {
    1 <= |key| <= 200 && forall c | c in key :: c != '\r' && c != '\n' && c != '\t'
  }

  /** The records whose time has not come. */
  ghost predicate OnlyExpiredGone(before: Table, after: Table, clock: int) {
    && (forall id | id in before && clock < Instant(before[id].expiresAt) :: id in after && after[id] == before[id])
    && (forall id | id in after :: id in before && clock < Instant(before[id].expiresAt))
  }

  /** Main result. A request is granted exactly when its key is well formed and every earlier grant of
      its scope was abandoned or has expired. A grant adds the running record of the request; every
      request with a well formed key removes the expired records, and a malformed key changes nothing. */
  lemma GrantedIff(w: World, scope: Scope, payload: nat, expires: Time, newId: nat)
    requires Inv(w) && newId !in Live(w.table, w.now)
    ensures var (table, d) := Begin(w.table, scope, payload, w.now, expires, newId, |w.holders|);
            && (d.Granted? <==> WellFormed(scope.key) && Free(w.holders, scope, Instant(w.now)))
            && (d.Granted? ==>
                  && d == Granted(newId) && newId in table
                  && table[newId] == Row(scope, payload, Status.Running, expires, |w.holders|))
            && (if WellFormed(scope.key)
                then OnlyExpiredGone(w.table, if d.Granted? then table - {newId} else table, Instant(w.now))
                else table == w.table
                     && d == if 1 <= |scope.key| <= 200 then BadCharacters else BadLength)
  {
    var row := Row(scope, payload, Status.Running, expires, |w.holders|);
    FoundIffTaken(w.table, w.now, w.holders, Instant(w.now), scope);
    LiveIsUnexpired(w.table, w.now);
    GrantAddsRow(Live(w.table, w.now), newId, row);
    BeginCases(w.table, scope, payload, w.now, expires, newId, |w.holders|);
  }

  /** Which of the answers is given, and the table it leaves. */
  lemma BeginCases(t: Table, scope: Scope, payload: nat, now: Time, expires: Time, newId: nat, grant: nat)
    requires OnePerScope(t) && OnePerScope(Live(t, now))
    ensures var (table, d) := Begin(t, scope, payload, now, expires, newId, grant);
            if !WellFormed(scope.key) then table == t && d == if 1 <= |scope.key| <= 200 then BadCharacters else BadLength
            else if Lookup(Live(t, now), scope).Some? then table == Live(t, now) && !d.Granted?
            else table == Live(t, now)[newId := Row(scope, payload, Status.Running, expires, grant)] && d == Granted(newId)
  {
    KeyIsWellFormed(scope.key);
  }

  lemma KeyIsWellFormed(key: string)
    ensures KeyFits(key) && KeyClean(key) <==> WellFormed(key)
  {
  }

  lemma LiveIsUnexpired(t: Table, now: Time)
    ensures OnlyExpiredGone(t, Live(t, now), Instant(now))
  {
    LiveRows(t, now, Instant(now));
  }

  lemma GrantAddsRow(t: Table, id: nat, row: Row)
    requires id !in t
    ensures t[id := row] - {id} == t
  {
  }

  /** The request that stands in the way of a scope, and what it says of a new payload. */
  predicate Refuses(h: Holder, scope: Scope, payload: nat, clock: int, d: Decision) {
    && h.scope == scope && h.phase != Abandoned && !Lapsed(h, clock)
    && d == if h.payload != payload then DifferentPayload
            else if h.phase == Done then AlreadyProcessed
            else StillRunning
  }

  /** A refusal tells the truth about the request that holds the scope: whether its payload is another,
      and otherwise whether it was completed. */
  lemma {:induction false} RefusalIsTruthful(w: World, scope: Scope, payload: nat, expires: Time, newId: nat)
    requires Inv(w) && KeyFits(scope.key) && KeyClean(scope.key) && !Free(w.holders, scope, Instant(w.now))
    ensures exists g | 0 <= g < |w.holders| ::
              Refuses(w.holders[g], scope, payload, Instant(w.now),
                      Begin(w.table, scope, payload, w.now, expires, newId, |w.holders|).1)
  {
    var clock := Instant(w.now);
    FoundIffTaken(w.table, w.now, w.holders, clock, scope);
    LiveRows(w.table, w.now, clock);
    var id := Lookup(Live(w.table, w.now), scope).value;
    var g := w.table[id].grant;
    assert Owns(w.holders[g], w.table[id], id);
    assert Refuses(w.holders[g], scope, payload, clock,
                   Begin(w.table, scope, payload, w.now, expires, newId, |w.holders|).1);
  }

  lemma {:induction false} GrantRows(t: Table, holders: seq<Holder>, clock: int, h: Holder, row: Row)
    requires OnePerScope(t) && RowsHaveHolders(t, holders) && HoldersHaveRows(t, holders, clock)
    requires h.id !in t && h.phase == Open && row.grant == |holders| && Owns(h, row, h.id)
    requires forall id | id in t :: t[id].scope != h.scope
    ensures var after := t[h.id := row];
            && OnePerScope(after) && RowsHaveHolders(after, holders + [h])
            && HoldersHaveRows(after, holders + [h], clock)
  {
    var after := t[h.id := row];
    forall g | 0 <= g < |holders + [h]| ensures HasRow(after, (holders + [h])[g], g, clock) {
      if g < |holders| {
        assert HasRow(t, holders[g], g, clock);
      }
    }
  }

  lemma GrantSeparates(holders: seq<Holder>, clock: int, h: Holder)
    requires AllSeparated(holders) && h.begun == clock && Free(holders, h.scope, clock)
    ensures AllSeparated(holders + [h])
  {
    forall i, j | 0 <= i < j < |holders + [h]| ensures Separated((holders + [h])[i], (holders + [h])[j]) {
      if j < |holders| {
        assert Separated(holders[i], holders[j]);
      }
    }
  }

  /** The world after a grant. */
  function GrantedWorld(w: World, scope: Scope, payload: nat, expires: Time, newId: nat): World {
    w.(table := w.table[newId := Row(scope, payload, Status.Running, expires, |w.holders|)],
       holders := w.holders + [Holder(newId, scope, payload, Instant(w.now), Instant(expires), Open)])
  }

  /** A malformed key changes nothing, a refusal only purges, a grant adds its record. */
  lemma {:induction false} AskOutcome(w: World, scope: Scope, payload: nat, expires: Time, newId: nat)
    requires OnePerScope(w.table) && Enabled(w, Ask(scope, payload, expires, newId))
    requires OnePerScope(Live(w.table, w.now))
    ensures var purged := w.(table := Live(w.table, w.now));
            Next(w, Ask(scope, payload, expires, newId))
            == if !KeyFits(scope.key) || !KeyClean(scope.key) then w
               else if Lookup(purged.table, scope).Some? then purged
               else GrantedWorld(purged, scope, payload, expires, newId)
  {
  }

  lemma {:induction false} PurgedWorld(w: World)
    requires Inv(w)
    ensures Inv(w.(table := Live(w.table, w.now)))
  {
    PurgeKeeps(w.table, w.now, w.holders, Instant(w.now));
  }

  lemma {:induction false} AskKeeps(w: World, scope: Scope, payload: nat, expires: Time, newId: nat)
    requires Inv(w) && Enabled(w, Ask(scope, payload, expires, newId))
    ensures Inv(Next(w, Ask(scope, payload, expires, newId)))
  {
    var purged := w.(table := Live(w.table, w.now));
    PurgedWorld(w);
    AskOutcome(w, scope, payload, expires, newId);
    FoundIffTaken(w.table, w.now, w.holders, Instant(w.now), scope);
    if Lookup(purged.table, scope).None? {
      GrantKeeps(purged, scope, payload, expires, newId, Instant(w.now));
    }
  }

  lemma {:induction false} GrantKeeps(w: World, scope: Scope, payload: nat, expires: Time, newId: nat, clock: int)
    requires Inv(w) && clock == Instant(w.now) && Instant(expires) == clock + w.ttl
    requires newId !in w.table && Lookup(w.table, scope).None? && Free(w.holders, scope, clock)
    ensures Inv(GrantedWorld(w, scope, payload, expires, newId))
  {
    var h := Holder(newId, scope, payload, clock, Instant(expires), Open);
    GrantRows(w.table, w.holders, clock, h, Row(scope, payload, Status.Running, expires, |w.holders|));
    GrantSeparates(w.holders, clock, h);
  }

  /** A phase that changes, while another is never left abandoned. */
  lemma PhaseSeparates(holders: seq<Holder>, g: nat, phase: Phase)
    requires g < |holders| && holders[g].phase == Open && AllSeparated(holders)
    ensures AllSeparated(holders[g := holders[g].(phase := phase)])
  {
    var after := holders[g := holders[g].(phase := phase)];
    forall i, j | 0 <= i < j < |after| ensures Separated(after[i], after[j]) {
      assert Separated(holders[i], holders[j]);
    }
  }

  lemma {:induction false} SucceedRows(t: Table, holders: seq<Holder>, clock: int, g: nat)
    requires OnePerScope(t) && RowsHaveHolders(t, holders) && HoldersHaveRows(t, holders, clock)
    requires g < |holders| && holders[g].phase == Open && !Lapsed(holders[g], clock)
    ensures var h := holders[g];
            && IsRunning(t, h.id)
            && OnePerScope(Complete(t, h.id)) && RowsHaveHolders(Complete(t, h.id), holders[g := h.(phase := Done)])
            && HoldersHaveRows(Complete(t, h.id), holders[g := h.(phase := Done)], clock)
  {
    var h := holders[g];
    assert HasRow(t, h, g, clock);
    assert Owns(h, t[h.id], h.id);
    var rows, after := Complete(t, h.id), holders[g := h.(phase := Done)];
    forall k | 0 <= k < |after| ensures HasRow(rows, after[k], k, clock) {
      assert HasRow(t, holders[k], k, clock);
    }
  }

  lemma {:induction false} UnrecordedRows(t: Table, holders: seq<Holder>, clock: int, g: nat)
    requires RowsHaveHolders(t, holders) && HoldersHaveRows(t, holders, clock)
    requires g < |holders| && holders[g].phase == Open
    ensures var after := holders[g := holders[g].(phase := CompleteFailed)];
            RowsHaveHolders(t, after) && HoldersHaveRows(t, after, clock)
  {
    var after := holders[g := holders[g].(phase := CompleteFailed)];
    forall k | 0 <= k < |after| ensures HasRow(t, after[k], k, clock) {
      assert HasRow(t, holders[k], k, clock);
    }
  }

  lemma {:induction false} GiveUpRows(t: Table, holders: seq<Holder>, clock: int, g: nat)
    requires OnePerScope(t) && RowsHaveHolders(t, holders) && HoldersHaveRows(t, holders, clock)
    requires g < |holders| && holders[g].phase == Open && !Lapsed(holders[g], clock)
    ensures var h := holders[g];
            && IsRunning(t, h.id)
            && OnePerScope(Abandon(t, h.id)) && RowsHaveHolders(Abandon(t, h.id), holders[g := h.(phase := Abandoned)])
            && HoldersHaveRows(Abandon(t, h.id), holders[g := h.(phase := Abandoned)], clock)
  {
    var h := holders[g];
    assert HasRow(t, h, g, clock);
    assert Owns(h, t[h.id], h.id);
    var rows, after := Abandon(t, h.id), holders[g := h.(phase := Abandoned)];
    forall k | 0 <= k < |after| ensures HasRow(rows, after[k], k, clock) {
      assert HasRow(t, holders[k], k, clock);
    }
  }

  lemma {:induction false} SettleKeeps(w: World, ev: Event)
    requires Inv(w) && Enabled(w, ev) && Timely(w, ev) && (ev.Succeed? || ev.SucceedUnrecorded? || ev.GiveUp?)
    ensures Inv(Next(w, ev))
  {
    var g, clock := ev.grant, Instant(w.now);
    match ev
    case Succeed(_) =>
      SucceedRows(w.table, w.holders, clock, g);
      PhaseSeparates(w.holders, g, Done);
    case SucceedUnrecorded(_) =>
      UnrecordedRows(w.table, w.holders, clock, g);
      PhaseSeparates(w.holders, g, CompleteFailed);
    case GiveUp(_) =>
      GiveUpRows(w.table, w.holders, clock, g);
      PhaseSeparates(w.holders, g, Abandoned);
  }

  lemma {:induction false} AdvanceKeeps(w: World, to: Time)
    requires Inv(w) && Enabled(w, Advance(to))
    ensures Inv(Next(w, Advance(to)))
  {
    var clock, later := Instant(w.now), Instant(to);
    forall k | 0 <= k < |w.holders| ensures HasRow(w.table, w.holders[k], k, later) {
      assert HasRow(w.table, w.holders[k], k, clock);
    }
  }

  lemma {:induction false} NextKeeps(w: World, ev: Event)
    requires Inv(w) && Timely(w, ev)
    ensures Inv(Next(w, ev)) && Next(w, ev).ttl == w.ttl
  {
    if Enabled(w, ev) {
      match ev
      case Advance(to) => AdvanceKeeps(w, to);
      case Ask(scope, payload, expires, newId) => AskKeeps(w, scope, payload, expires, newId);
      case _ => SettleKeeps(w, ev);
    }
  }

  lemma {:induction false} RunKeeps(w: World, events: seq<Event>)
    requires Inv(w) && TimelyRun(w, events)
    ensures Inv(Run(w, events)) && Run(w, events).ttl == w.ttl
    decreases |events|
  {
    if events != [] {
      NextKeeps(w, events[0]);
      RunKeeps(Next(w, events[0]), events[1..]);
    }
  }

  /** The request still relies on its record. */
  predicate HoldsRow(w: World, g: nat)
    requires g < |w.holders|
  {
    w.holders[g].phase != Abandoned && !Lapsed(w.holders[g], Instant(w.now))
  }

  /** Main result. On every timely trace there is one record per scope at most, two grants of a scope
      are separated by an abandon of the first or by its expiry, and no two unexpired requests share a
      record. */
  lemma {:induction false} GrantsAreSeparated(start: Time, ttl: nat, events: seq<Event>)
    requires TimelyRun(Initial(start, ttl), events)
    ensures var w := Run(Initial(start, ttl), events);
            && OnePerScope(w.table)
            && (forall i, j | 0 <= i < j < |w.holders| && w.holders[i].scope == w.holders[j].scope ::
                  w.holders[i].phase == Abandoned || w.holders[i].begun + ttl <= w.holders[j].begun)
            && (forall i, j | 0 <= i < j < |w.holders| && HoldsRow(w, i) && HoldsRow(w, j) ::
                  w.holders[i].id != w.holders[j].id)
  {
    RunKeeps(Initial(start, ttl), events);
    var w := Run(Initial(start, ttl), events);
    var clock := Instant(w.now);
    forall i, j | 0 <= i < j < |w.holders| && w.holders[i].scope == w.holders[j].scope
      ensures w.holders[i].phase == Abandoned || w.holders[i].begun + ttl <= w.holders[j].begun
    {
      assert Separated(w.holders[i], w.holders[j]);
    }
    forall i, j | 0 <= i < j < |w.holders| && HoldsRow(w, i) && HoldsRow(w, j)
      ensures w.holders[i].id != w.holders[j].id
    {
      assert HasRow(w.table, w.holders[i], i, clock) && HasRow(w.table, w.holders[j], j, clock);
    }
  }

  /** Settling in time touches the request's own record and no other. */
  lemma {:induction false} SettlesOwnRecord(w: World, g: nat)
    requires Inv(w) && g < |w.holders| && w.holders[g].phase == Open && !Lapsed(w.holders[g], Instant(w.now))
    ensures var id := w.holders[g].id;
            && IsRunning(w.table, id) && w.table[id].grant == g
            && Complete(w.table, id) == w.table[id := w.table[id].(status := Status.Completed)]
            && Abandon(w.table, id) == w.table - {id}
  {
    assert HasRow(w.table, w.holders[g], g, Instant(w.now));
    assert Owns(w.holders[g], w.table[w.holders[g].id], w.holders[g].id);
  }

  // ----- why requests must settle in time

  // ----- completed records

  /** A completed record stays as it is until it expires, whatever happens: no request, in time or late,
      deletes or replaces it. */
  lemma CompletedIsKept(w: World, ev: Event, id: nat)
    requires id in w.table && w.table[id].status == Completed
    requires Instant(w.now) < Instant(w.table[id].expiresAt)
    ensures id in Next(w, ev).table && Next(w, ev).table[id] == w.table[id]
  {
    match ev
    case Ask(scope, payload, expires, newId) =>
      if Enabled(w, ev) {
        AskKeepsLive(w, scope, payload, expires, newId, id);
      }
    case _ => SettlingKeepsCompleted(w, ev, id);
  }

  lemma AskKeepsLive(w: World, scope: Scope, payload: nat, expires: Time, newId: nat, id: nat)
    requires Enabled(w, Ask(scope, payload, expires, newId))
    requires id in w.table && Instant(w.now) < Instant(w.table[id].expiresAt)
    ensures var t := Next(w, Ask(scope, payload, expires, newId)).table; id in t && t[id] == w.table[id]
  {
    LiveRows(w.table, w.now, Instant(w.now));
    LiveIsOnePerScope(w.table, w.now);
    AskOutcome(w, scope, payload, expires, newId);
    assert id in Live(w.table, w.now) && newId != id;
  }

  lemma LiveIsOnePerScope(t: Table, now: Time)
    requires OnePerScope(t)
    ensures OnePerScope(Live(t, now))
  {
  }

  lemma SettlingKeepsCompleted(w: World, ev: Event, id: nat)
    requires id in w.table && w.table[id].status == Completed && !ev.Ask?
    ensures id in Next(w, ev).table && Next(w, ev).table[id] == w.table[id]
  {
  }

  /** A request counts as completed exactly when its number bears a running record, and that record is
      then completed; otherwise the table stays as it is. */
  lemma CompletionIsRecorded(w: World, g: nat)
    requires g < |w.holders| && w.holders[g].phase == Open
    ensures var id := w.holders[g].id;
            var after := Next(w, Succeed(g));
            var running := id in w.table && w.table[id].status == Running;
            && (after.holders[g].phase == Done <==> running)
            && after.table == if running then w.table[id := w.table[id].(status := Completed)] else w.table
  {
  }

  // ----- what a settlement leaves

  lemma OthersAreThrough(w: World, g: nat, k: nat)
    requires Inv(w) && g < |w.holders| && k < |w.holders| && k != g
    requires w.holders[g].phase != Abandoned && !Lapsed(w.holders[g], Instant(w.now))
    requires w.holders[k].scope == w.holders[g].scope
    ensures w.holders[k].phase == Abandoned || Lapsed(w.holders[k], Instant(w.now))
  {
    if k < g {
      assert Separated(w.holders[k], w.holders[g]);
    }
  }

  /** Main result on settling. A request that gives up in time leaves its scope free at once; one that
      succeeds, recorded or not, keeps it until its record expires, and not longer. */
  lemma SettlementDecides(w: World, g: nat, clock: int)
    requires Inv(w) && g < |w.holders| && w.holders[g].phase == Open && !Lapsed(w.holders[g], Instant(w.now))
    requires Instant(w.now) <= clock
    ensures var h := w.holders[g];
            && Free(Next(w, GiveUp(g)).holders, h.scope, clock)
            && (Free(Next(w, Succeed(g)).holders, h.scope, clock) <==> h.expires <= clock)
            && (Free(Next(w, SucceedUnrecorded(g)).holders, h.scope, clock) <==> h.expires <= clock)
  {
    forall k | 0 <= k < |w.holders| && k != g && w.holders[k].scope == w.holders[g].scope
      ensures w.holders[k].phase == Abandoned || Lapsed(w.holders[k], Instant(w.now))
    {
      OthersAreThrough(w, g, k);
    }
    SettledFree(w.holders, g, Abandoned, clock, Instant(w.now));
    SettledFree(w.holders, g, Done, clock, Instant(w.now));
    SettledFree(w.holders, g, CompleteFailed, clock, Instant(w.now));
  }

  lemma SettledFree(holders: seq<Holder>, g: nat, phase: Phase, clock: int, now: int)
    requires g < |holders| && now <= clock
    requires forall k | 0 <= k < |holders| && k != g && holders[k].scope == holders[g].scope ::
               holders[k].phase == Abandoned || Lapsed(holders[k], now)
    ensures Free(holders[g := holders[g].(phase := phase)], holders[g].scope, clock)
            <==> phase == Abandoned || holders[g].expires <= clock
  {
    var after := holders[g := holders[g].(phase := phase)];
    assert after[g].scope == holders[g].scope;
  }

  lemma {:induction false} AskOfFreeScope(w: World, scope: Scope, payload: nat, expires: Time, newId: nat)
    requires KeyFits(scope.key) && KeyClean(scope.key) && OnePerScope(w.table)
    requires Instant(expires) == Instant(w.now) + w.ttl
    requires forall id | id in w.table :: Instant(w.table[id].expiresAt) <= Instant(w.now)
    ensures var h := Holder(newId, scope, payload, Instant(w.now), Instant(expires), Open);
            Next(w, Ask(scope, payload, expires, newId))
            == w.(table := map[newId := Row(scope, payload, Status.Running, expires, |w.holders|)], holders := w.holders + [h])
  {
    LiveRows(w.table, w.now, Instant(w.now));
    assert Live(w.table, w.now) == map[];
  }

  lemma {:induction false} RunOne(w: World, ev: Event, rest: seq<Event>)
    ensures Run(w, [ev] + rest) == Run(Next(w, ev), rest)
  {
    assert ([ev] + rest)[1..] == rest;
  }

  predicate Usable(scope: Scope) {
    KeyFits(scope.key) && KeyClean(scope.key)
  }

  /** The number of a grant belongs to the running record of another request. */
  predicate HoldsAnothers(w: World, g: nat)
    requires g < |w.holders|
  {
    IsRunning(w.table, w.holders[g].id) && w.table[w.holders[g].id].grant != g
  }

  /** When every record has expired by `later`, a new request may take any number. */
  lemma {:induction false} NumberTaken(
    w: World, later: Time, scope: Scope, payload: nat, last: Time, id: nat, rest: seq<Event>)
    requires Usable(scope) && Instant(w.now) <= Instant(later) && Instant(last) == Instant(later) + w.ttl
    requires forall k | k in w.table :: Instant(w.table[k].expiresAt) <= Instant(later)
    requires OnePerScope(w.table)
    ensures Run(w, [Advance(later)] + ([Ask(scope, payload, last, id)] + rest))
            == Run(World(map[id := Row(scope, payload, Status.Running, last, |w.holders|)],
                         w.holders + [Holder(id, scope, payload, Instant(later), Instant(last), Open)], later, w.ttl), rest)
  {
    var c := Ask(scope, payload, last, id);
    RunOne(w, Advance(later), [c] + rest);
    AskOfFreeScope(w.(now := later), scope, payload, last, id);
    RunOne(w.(now := later), c, rest);
  }

  lemma {:induction false} AdvanceAndAskAreTimely(w: World, later: Time, scope: Scope, payload: nat, last: Time, id: nat)
    ensures TimelyRun(w, [Advance(later)] + ([Ask(scope, payload, last, id)] + []))
  {
    var c := [Ask(scope, payload, last, id)] + [];
    assert ([Advance(later)] + c)[1..] == c && c[1..] == [];
  }

  /** Main result, the converse of `SettlesOwnRecord`. From every reachable world with an open grant
      that has expired, a timely continuation gives its number to a running record of any other scope;
      giving up then deletes that record, and the other scope is granted again at the same instant.
      `later` is a time by which every record has expired. */
  lemma {:induction false} LateAbandonFreesAnother(
    w: World, g: nat, later: Time, last: Time, other: Scope, payload: nat) returns (events: seq<Event>)
    requires Inv(w) && g < |w.holders| && w.holders[g].phase == Open && Lapsed(w.holders[g], Instant(w.now))
    requires other != w.holders[g].scope && Usable(other) && 0 < w.ttl
    requires Instant(w.now) <= Instant(later) && Instant(last) == Instant(later) + w.ttl
    requires forall k | k in w.table :: Instant(w.table[k].expiresAt) <= Instant(later)
    ensures TimelyRun(w, events)
    ensures var n := |w.holders|;
            var t := Run(w, events);
            && Inv(t) && |t.holders| == n + 1 && t.holders[..n] == w.holders && t.holders[n].scope == other
            && HoldsRow(t, n) && HoldsAnothers(t, g) && t.table[t.holders[g].id].grant == n
            && !Timely(t, GiveUp(g)) && Next(t, GiveUp(g)).table == t.table - {t.holders[g].id}
            && var u := Next(Next(t, GiveUp(g)), Ask(other, payload, last, t.holders[g].id));
               |u.holders| == n + 2 && u.holders[n + 1].scope == other && u.holders[n].begun == u.holders[n + 1].begun
               && HoldsRow(u, n) && HoldsRow(u, n + 1)
  {
    var id := w.holders[g].id;
    var n := |w.holders|;
    events := [Advance(later)] + ([Ask(other, payload, last, id)] + []);
    AdvanceAndAskAreTimely(w, later, other, payload, last, id);
    RunKeeps(w, events);
    NumberTaken(w, later, other, payload, last, id, []);
    var h := Holder(id, other, payload, Instant(later), Instant(last), Open);
    var t := World(map[id := Row(other, payload, Status.Running, last, n)], w.holders + [h], later, w.ttl);
    assert Run(w, events) == t;
    AskedAgain(t, g, last, other, payload);
  }

  /** Giving up a number that another's only record bears, and asking for that scope again. */
  lemma {:induction false} AskedAgain(t: World, g: nat, last: Time, other: Scope, payload: nat)
    requires g < |t.holders| && t.holders[g].phase == Open && Usable(other)
    requires t.table.Keys == {t.holders[g].id} && t.table[t.holders[g].id].status == Status.Running
    requires Instant(last) == Instant(t.now) + t.ttl
    ensures var id := t.holders[g].id;
            && Next(t, GiveUp(g)).table == t.table - {id}
            && Next(Next(t, GiveUp(g)), Ask(other, payload, last, id)).holders
               == t.holders[g := t.holders[g].(phase := Abandoned)]
                  + [Holder(id, other, payload, Instant(t.now), Instant(last), Open)]
            && Next(Next(t, GiveUp(g)), Ask(other, payload, last, id)).now == t.now
  {
    var id := t.holders[g].id;
    var freed := t.(table := map[], holders := t.holders[g := t.holders[g].(phase := Abandoned)]);
    assert Abandon(t.table, id) == map[] == t.table - {id};
    assert Next(t, GiveUp(g)) == freed;
    AskOfFreeScope(freed, other, payload, last, id);
  }
}

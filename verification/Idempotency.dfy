/** Idempotency records: one per scope, kept until it expires or is abandoned. */
module Idempotency {
  import opened Wrappers
  import opened IsoTime

  /** What a key identifies: the caller, the route and the key itself. */
  datatype Scope = Scope(accessKey: nat, httpMethod: string, route: string, key: string)

  datatype Status = Running | Completed

  /** `grant` is the number of the grant that made the record; the program does not keep it. */
  datatype Row = Row(scope: Scope, payload: nat, status: Status, expiresAt: Time, grant: nat)

  type Table = map<nat, Row>

  datatype Decision =
    | Granted(id: nat) | BadLength | BadCharacters
    | DifferentPayload | AlreadyProcessed | StillRunning

  /** The comparison the database makes, on texts. */
  predicate Expired(row: Row, now: Time) {
    TextLe(Iso(row.expiresAt), Iso(now))
  }

  function Live(t: Table, now: Time): Table {
    map id | id in t && !Expired(t[id], now) :: t[id]
  }

  predicate OnePerScope(t: Table) {
    forall i, j | i in t && j in t && t[i].scope == t[j].scope :: i == j
  }

  function Lookup(t: Table, scope: Scope): (r: Option<nat>)
    requires OnePerScope(t)
    ensures r.Some? ==> r.value in t && t[r.value].scope == scope
    ensures r.None? ==> forall id | id in t :: t[id].scope != scope
  {
    if exists id | id in t :: t[id].scope == scope then
      var id :| id in t && t[id].scope == scope;
      Some(id)
    else None
  }

  predicate KeyFits(key: string) {
    1 <= |key| <= 200
  }

  predicate KeyClean(key: string) {
    '\r' !in key && '\n' !in key && '\t' !in key
  }

  function Conflict(row: Row, payload: nat): Decision {
    if row.payload != payload then DifferentPayload
    else if row.status == Completed then AlreadyProcessed
    else StillRunning
  }

  /** The table and the decision after a `begin`; a new record takes the row number `newId`. */
  function Begin(
    t: Table, scope: Scope, payload: nat, now: Time, expires: Time, newId: nat, grant: nat): (Table, Decision)
    requires OnePerScope(t)
  {
    if !KeyFits(scope.key) then (t, BadLength)
    else if !KeyClean(scope.key) then (t, BadCharacters)
    else
      match Lookup(Live(t, now), scope)
      case Some(id) => (Live(t, now), Conflict(t[id], payload))
      case None => (Live(t, now)[newId := Row(scope, payload, Running, expires, grant)], Granted(newId))
  }

  predicate IsRunning(t: Table, id: nat) {
    id in t && t[id].status == Running
  }

  function Complete(t: Table, id: nat): Table {
    if IsRunning(t, id) then t[id := t[id].(status := Completed)] else t
  }

  function Abandon(t: Table, id: nat): Table {
    if IsRunning(t, id) then t - {id} else t
  }

  // ----- the service

  class Records {
    var table: Table

    constructor ()
      ensures table == map[]
    {
      table := map[];
    }

    method BeginRequest(scope: Scope, payload: nat, now: Time, expires: Time, newId: nat, grant: nat)
      returns (d: Decision)
      requires OnePerScope(table) && newId !in Live(table, now)
      modifies this
      ensures (table, d) == Begin(old(table), scope, payload, now, expires, newId, grant)
      ensures OnePerScope(table)
    {
      if |scope.key| == 0 || |scope.key| > 200 {
        return BadLength;
      }
      if '\r' in scope.key || '\n' in scope.key || '\t' in scope.key {
        return BadCharacters;
      }
      table := Live(table, now);
      match Lookup(table, scope)
      case Some(id) =>
        return Conflict(table[id], payload);
      case None =>
        table := table[newId := Row(scope, payload, Running, expires, grant)];
        return Granted(newId);
    }

    /** Fails unless exactly one record was running under that number. */
    method CompleteRequest(id: nat) returns (done: bool)
      modifies this
      ensures table == Complete(old(table), id)
      ensures done <==> IsRunning(old(table), id)
    {
      done := id in table && table[id].status == Running;
      if done {
        table := table[id := table[id].(status := Completed)];
      }
    }

    method AbandonRequest(id: nat)
      modifies this
      ensures table == Abandon(old(table), id)
    {
      if id in table && table[id].status == Running {
        table := table - {id};
      }
    }
  }

  // ----- requests over time

  datatype Phase = Open | Done | CompleteFailed | Abandoned

  /** A granted request, and the instants it was granted and will expire at. */
  datatype Holder = Holder(id: nat, scope: Scope, payload: nat, begun: int, expires: int, phase: Phase)

  datatype World = World(table: Table, holders: seq<Holder>, now: Time, ttl: nat)

  /** `Unfinished` is a complete that raises without reaching the table. */
  datatype Event =
    | Advance(to: Time)
    | Ask(scope: Scope, payload: nat, expires: Time, newId: nat)
    | Succeed(grant: nat)
    | SucceedUnrecorded(grant: nat)
    | GiveUp(grant: nat)

  predicate Enabled(w: World, ev: Event) {
    match ev
    case Advance(to) => Instant(w.now) <= Instant(to)
    case Ask(scope, _, expires, newId) =>
      OnePerScope(w.table) && newId !in Live(w.table, w.now) && Instant(expires) == Instant(w.now) + w.ttl
    case Succeed(g) => g < |w.holders| && w.holders[g].phase == Open
    case SucceedUnrecorded(g) => g < |w.holders| && w.holders[g].phase == Open
    case GiveUp(g) => g < |w.holders| && w.holders[g].phase == Open
  }

  function SetPhase(w: World, g: nat, phase: Phase): seq<Holder>
    requires g < |w.holders|
  {
    w.holders[g := w.holders[g].(phase := phase)]
  }

  function Next(w: World, ev: Event): World {
    if !Enabled(w, ev) then w
    else
      match ev
      case Advance(to) => w.(now := to)
      case Ask(scope, payload, expires, newId) =>
        (match Begin(w.table, scope, payload, w.now, expires, newId, |w.holders|)
         case (table, Granted(id)) =>
           w.(table := table, holders := w.holders + [Holder(id, scope, payload, Instant(w.now), Instant(expires), Open)])
         case (table, _) => w.(table := table))
      case Succeed(g) =>
        w.(table := Complete(w.table, w.holders[g].id),
           holders := SetPhase(w, g, if IsRunning(w.table, w.holders[g].id) then Done else CompleteFailed))
      case SucceedUnrecorded(g) => w.(holders := SetPhase(w, g, CompleteFailed))
      case GiveUp(g) => w.(table := Abandon(w.table, w.holders[g].id), holders := SetPhase(w, g, Abandoned))
  }

  function Initial(now: Time, ttl: nat): World {
    World(map[], [], now, ttl)
  }

  function Run(w: World, events: seq<Event>): World
    decreases |events|
  {
    if events == [] then w else Run(Next(w, events[0]), events[1..])
  }
}

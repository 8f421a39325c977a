/** The operations on the parameter tables as the service runs them, statement by statement inside a
    transaction that is either committed as a whole or leaves no trace. */
module ParameterService {
  import opened Wrappers
  import opened Text
  import opened Parameters
  import opened ParameterStore

  // ----- reordering and synchronisation, on values

  predicate SameIds(rows: Rows, queryId: nat, ids: seq<nat>) {
    ids != [] && Distinct(ids) && IdsOf(rows, queryId) == set id | id in ids
  }

  /** The listed rows numbered from `position` on. */
  function Renumber(rows: Rows, ids: seq<nat>, position: nat): Rows
    decreases |ids|
  {
    if ids == [] then rows
    else Renumber(if ids[0] in rows then rows[ids[0] := rows[ids[0]].(position := position)] else rows,
                  ids[1..], position + 1)
  }

  /** The parameter that bears a canonical name, if any. */
  function IdOfName(rows: Rows, queryId: nat, name: string): (r: Option<nat>)
    requires UniqueNames(rows)
    ensures r.Some? ==> r.value in rows && rows[r.value].queryId == queryId && Upper(rows[r.value].name) == name
    ensures r.None? ==> forall id | id in rows && rows[id].queryId == queryId :: Upper(rows[id].name) != name
  {
    if exists id | id in rows :: rows[id].queryId == queryId && Upper(rows[id].name) == name then
      OneId(rows, queryId, name);
      var id :| id in rows && rows[id].queryId == queryId && Upper(rows[id].name) == name;
      Some(id)
    else None
  }

  lemma OneId(rows: Rows, queryId: nat, name: string)
    requires UniqueNames(rows)
    ensures forall a, b | a in rows && b in rows && rows[a].queryId == queryId && rows[b].queryId == queryId
                          && Upper(rows[a].name) == name && Upper(rows[b].name) == name :: a == b
  {
  }

  const AUTOMATIC := "Detectado automaticamente pelo editor"

  function DetectedRow(queryId: nat, d: Detected, position: nat): Row {
    Row(queryId, d.name, "string", d.source, position, None, true, Some(AUTOMATIC), None)
  }

  datatype SyncState = SyncState(
    rows: Rows, nextRow: nat, position: nat, created: seq<string>, updated: seq<string>)

  /** One candidate: insert a missing parameter, or force a path parameter to be one. `known` are the
      rows read before the transaction. */
  function SyncOne(known: Rows, queryId: nat, s: SyncState, d: Detected): Option<SyncState>
    requires UniqueNames(known)
  {
    match IdOfName(known, queryId, d.name)
    case None =>
      (match Put(s.rows, s.nextRow, DetectedRow(queryId, d, s.position + 1))
       case None => None
       case Some(rows) =>
         Some(SyncState(rows, s.nextRow + 1, s.position + 1, s.created + [d.name], s.updated)))
    case Some(id) =>
      if d.source == "path" && (known[id].source != "path" || !known[id].required) then
        Some(s.(rows := if id in s.rows then s.rows[id := s.rows[id].(source := "path", required := true)] else s.rows,
                updated := s.updated + [d.name]))
      else Some(s)
  }

  function SyncAll(known: Rows, queryId: nat, s: SyncState, candidates: seq<Detected>): Option<SyncState>
    requires UniqueNames(known)
    decreases |candidates|
  {
    if candidates == [] then Some(s)
    else
      match SyncOne(known, queryId, s, candidates[0])
      case None => None
      case Some(next) => SyncAll(known, queryId, next, candidates[1..])
  }

  /** The highest position of a query's parameters; zero when it has none. */
  ghost predicate IsMaxPosition(rows: Rows, queryId: nat, m: nat) {
    && (forall id | id in IdsOf(rows, queryId) :: rows[id].position <= m)
    && (m == 0 || exists id | id in IdsOf(rows, queryId) :: rows[id].position == m)
  }

  // ----- the service

  class Metastore {
    var tables: Tables

    constructor (t: Tables)
      requires Valid(t)
      ensures tables == t
    {
      tables := t;
    }

    /** Saves a route and its complete parameter list. */
    method SaveQueryConfiguration(runtime: Runtime, queryId: Option<nat>, query: Query, items: seq<Item>)
      returns (r: Result<nat, SaveError>)
      requires Valid(tables)
      modifies this
      ensures match Save(runtime, old(tables), queryId, query, items)
              case Ok((saved, id)) => r == Ok(id) && tables == saved
              case Err(e) => r == Err(e) && tables == old(tables)
    {
      var q := Normalized(query);
      var problem := CheckConfiguration(runtime, q.route, q.sql, q.httpMethod, Definitions(items));
      if problem.Some? {
        return Err(Refused(problem.value));
      }
      r := SaveAccepted(queryId, q, items);
    }

    /** The transaction of a save. */
    method SaveAccepted(queryId: Option<nat>, q: Query, items: seq<Item>)
      returns (r: Result<nat, SaveError>)
      modifies this
      ensures match WriteSnapshot(old(tables), queryId, q, items)
              case Ok((saved, id)) => r == Ok(id) && tables == saved
              case Err(e) => r == Err(e) && tables == old(tables)
    {
      var written := WriteQuery(tables, queryId, q);
      if written.Err? {
        return Err(written.error);
      }
      var (work, id) := written.value;
      var retained := Retained(items);
      var existing := IdsOf(work.rows, id);
      if !Distinct(retained) || !((set k | k in retained) <= existing) {
        return Err(ForeignParameter);
      }
      var rows := DeleteRows(work.rows, existing - set k | k in retained);
      var renamed := RenameRows(rows, retained);
      if renamed.None? {
        return Err(NameTaken);
      }
      var stored := WriteRows(renamed.value, id, items, work.nextRow);
      if stored.None? {
        return Err(NameTaken);
      }
      tables := work.(rows := stored.value.0, nextRow := stored.value.1);
      return Ok(id);
    }

    method DeleteRows(rows: Rows, removed: set<nat>) returns (r: Rows)
      ensures r == rows - removed
    {
      r := rows;
      var left := removed;
      while left != {}
        invariant left <= removed && r == rows - (removed - left)
        decreases left
      {
        var id :| id in left;
        r := r - {id};
        left := left - {id};
      }
    }

    method RenameRows(rows: Rows, retained: seq<nat>) returns (r: Option<Rows>)
      ensures r == RenameAll(rows, retained)
    {
      var work := rows;
      for i := 0 to |retained|
        invariant RenameAll(work, retained[i..]) == RenameAll(rows, retained)
      {
        assert retained[i..][1..] == retained[i + 1..];
        var id := retained[i];
        if id in work {
          var next := Put(work, id, work[id].(name := TemporaryName(id)));
          if next.None? {
            return None;
          }
          work := next.value;
        }
      }
      return Some(work);
    }

    method WriteRows(rows: Rows, queryId: nat, items: seq<Item>, nextRow: nat) returns (r: Option<(Rows, nat)>)
      ensures r == WriteAll(rows, queryId, items, 1, nextRow)
    {
      var work, following := rows, nextRow;
      for i := 0 to |items|
        invariant WriteAll(work, queryId, items[i..], i + 1, following) == WriteAll(rows, queryId, items, 1, nextRow)
      {
        assert items[i..][1..] == items[i + 1..];
        var (id, next) := Target(items[i], following);
        var stored := Put(work, id, RowOf(queryId, items[i], i + 1));
        if stored.None? {
          return None;
        }
        work, following := stored.value, next;
      }
      return Some((work, following));
    }

    /** Puts the parameters of a query into the listed order. */
    method ReorderParameters(queryId: nat, ids: seq<nat>) returns (done: bool)
      modifies this
      ensures done <==> SameIds(old(tables).rows, queryId, ids)
      ensures tables == if done then old(tables).(rows := Renumber(old(tables).rows, ids, 1)) else old(tables)
    {
      if ids == [] || !Distinct(ids) || IdsOf(tables.rows, queryId) != set id | id in ids {
        return false;
      }
      var rows := tables.rows;
      for i := 0 to |ids|
        invariant Renumber(rows, ids[i..], i + 1) == Renumber(tables.rows, ids, 1)
        invariant tables == old(tables)
      {
        assert ids[i..][1..] == ids[i + 1..];
        if ids[i] in rows {
          rows := rows[ids[i] := rows[ids[i]].(position := i + 1)];
        }
      }
      tables := tables.(rows := rows);
      return true;
    }

    method HighestPosition(rows: Rows, queryId: nat) returns (m: nat)
      ensures IsMaxPosition(rows, queryId, m)
    {
      m := 0;
      var left := IdsOf(rows, queryId);
      while left != {}
        invariant left <= IdsOf(rows, queryId)
        invariant forall id | id in IdsOf(rows, queryId) - left :: rows[id].position <= m
        invariant m == 0 || exists id | id in IdsOf(rows, queryId) :: rows[id].position == m
        decreases left
      {
        var id :| id in left;
        if m < rows[id].position {
          m := rows[id].position;
        }
        left := left - {id};
      }
    }

    /** Adds the detected parameters a query does not have yet, and makes path parameters of those
        that must be. */
    method SyncDetectedParameters(queryId: nat)
      returns (r: Result<(seq<string>, seq<string>), SaveError>, start: nat)
      requires Valid(tables)
      modifies this
      ensures queryId !in old(tables).queries ==> r == Err(QueryMissing) && tables == old(tables)
      ensures queryId in old(tables).queries ==>
                var t := old(tables);
                var q := t.queries[queryId];
                && IsMaxPosition(t.rows, queryId, start)
                && match SyncAll(t.rows, queryId, SyncState(t.rows, t.nextRow, start, [], []),
                                 Detect(q.route, q.sql, q.httpMethod))
                   case None => r == Err(NameTaken) && tables == t
                   case Some(s) =>
                     r == Ok((s.created, s.updated)) && tables == t.(rows := s.rows, nextRow := s.nextRow)
    {
      if queryId !in tables.queries {
        return Err(QueryMissing), 0;
      }
      var q := tables.queries[queryId];
      var candidates := DetectParameters(q.route, q.sql, q.httpMethod);
      var known := tables.rows;
      start := HighestPosition(known, queryId);
      var s := SyncState(known, tables.nextRow, start, [], []);
      ghost var first := s;
      for i := 0 to |candidates|
        invariant SyncAll(known, queryId, s, candidates[i..]) == SyncAll(known, queryId, first, candidates)
        invariant tables == old(tables)
      {
        assert candidates[i..][1..] == candidates[i + 1..];
        var next := SyncOne(known, queryId, s, candidates[i]);
        if next.None? {
          return Err(NameTaken), start;
        }
        s := next.value;
      }
      tables := tables.(rows := s.rows, nextRow := s.nextRow);
      return Ok((s.created, s.updated)), start;
    }
  }
}

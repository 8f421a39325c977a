/** Saving a snapshot of a route's parameters: exactly when it succeeds, what it leaves in the
    tables, and that reading it back returns the snapshot. */
module SnapshotTheorems {
  import opened Wrappers
  import opened Text
  import opened Parameters
  import opened ParameterStore
  import BindingTheorems
  import Routes

  /** The rows of the other queries. */
  function Others(rows: Rows, queryId: nat): Rows {
    map id | id in rows && rows[id].queryId != queryId :: rows[id]
  }

  predicate Owned(rows: Rows, queryId: nat, items: seq<Item>) {
    Distinct(Retained(items)) && (set id | id in Retained(items)) <= IdsOf(rows, queryId)
  }

  lemma {:induction false} WrittenKeys(queryId: nat, items: seq<Item>, position: nat, nextRow: nat)
    ensures forall id | id in Retained(items) :: id in Written(queryId, items, position, nextRow)
    ensures forall id | id in Written(queryId, items, position, nextRow) ::
              && (id in Retained(items) || nextRow <= id)
              && Written(queryId, items, position, nextRow)[id].queryId == queryId
    decreases |items|
  {
    if items != [] {
      var (id, following) := Target(items[0], nextRow);
      WrittenKeys(queryId, items[1..], position + 1, following);
    }
  }

  /** The rows after the deletions. */
  function Cleared(rows: Rows, queryId: nat, items: seq<Item>): Rows {
    rows - (IdsOf(rows, queryId) - set id | id in Retained(items))
  }

  lemma {:induction false} ClearedRows(rows: Rows, queryId: nat, items: seq<Item>)
    requires Owned(rows, queryId, items)
    ensures var cleared := Cleared(rows, queryId, items);
            && IdsOf(cleared, queryId) == (set id | id in Retained(items))
            && (forall id | id in Retained(items) :: id in rows && rows[id].queryId == queryId && id in cleared)
            && (Blocked(cleared, Retained(items)) <==> Blocked(rows, Retained(items)))
  {
    var kept := set id | id in Retained(items);
    assert forall id | id in kept :: id in IdsOf(rows, queryId);
    assert forall k | 0 <= k < |Retained(items)| :: Retained(items)[k] in kept;
  }

  /** The rows after the renaming: those kept bear temporary names, and the snapshot will replace
      every one of them. */
  lemma {:induction false} RenamedRows(rows: Rows, queryId: nat, items: seq<Item>, nextRow: nat)
    requires Owned(rows, queryId, items)
    requires forall id | id in rows :: id < nextRow
    ensures var renamed := Renamed(Cleared(rows, queryId, items), Retained(items));
            && (forall id | id in Retained(items) :: id in renamed && renamed[id].queryId == queryId)
            && (forall id | id in IdsOf(renamed, queryId) :: renamed[id].name == TemporaryName(id))
            && (forall id | id in renamed :: id < nextRow)
            && renamed + Written(queryId, items, 1, nextRow) == Others(rows, queryId) + Written(queryId, items, 1, nextRow)
  {
    var cleared := Cleared(rows, queryId, items);
    var renamed := Renamed(cleared, Retained(items));
    ClearedRows(rows, queryId, items);
    assert IdsOf(renamed, queryId) == IdsOf(cleared, queryId);
    WrittenKeys(queryId, items, 1, nextRow);
    ReplaceRows(rows, renamed, Written(queryId, items, 1, nextRow), queryId);
  }

  lemma ReplaceRows(rows: Rows, renamed: Rows, written: Rows, queryId: nat)
    requires forall id | id in renamed :: id in rows && renamed[id].queryId == rows[id].queryId
    requires forall id | id in rows && rows[id].queryId != queryId :: id in renamed && renamed[id] == rows[id]
    requires forall id | id in IdsOf(renamed, queryId) :: id in written
    ensures renamed + written == Others(rows, queryId) + written
  {
    forall id | id in renamed && id !in written ensures id in Others(rows, queryId) && renamed[id] == rows[id] {
      assert id !in IdsOf(renamed, queryId);
    }
  }

  lemma NamesAreFree(rows: Rows, queryId: nat, items: seq<Item>)
    requires forall id | id in IdsOf(rows, queryId) :: rows[id].name == TemporaryName(id)
    requires forall name | name in ItemNames(items) :: !IsReserved(name)
    ensures forall id | id in IdsOf(rows, queryId) :: Upper(rows[id].name) !in ItemNames(items)
  {
    forall id | id in IdsOf(rows, queryId) ensures Upper(rows[id].name) !in ItemNames(items) {
      TemporaryNamesAreReserved(id);
    }
  }

  /** The parameters of a snapshot with distinct, unreserved names. */
  lemma {:induction false} WriteParametersOutcome(t: Tables, queryId: nat, items: seq<Item>)
    requires forall id | id in t.rows :: id < t.nextRow
    requires Distinct(ItemNames(items))
    requires forall name | name in ItemNames(items) :: !IsReserved(name)
    ensures WriteParameters(t, queryId, items).Ok?
            <==> Owned(t.rows, queryId, items) && !Blocked(t.rows, Retained(items))
    ensures WriteParameters(t, queryId, items).Ok? ==>
              WriteParameters(t, queryId, items).value.rows
              == Others(t.rows, queryId) + Written(queryId, items, 1, t.nextRow)
  {
    var retained := Retained(items);
    if Owned(t.rows, queryId, items) {
      var cleared := Cleared(t.rows, queryId, items);
      ClearedRows(t.rows, queryId, items);
      RenamedRows(t.rows, queryId, items, t.nextRow);
      RenameAllOutcome(cleared, queryId, {}, retained);
      if !Blocked(t.rows, retained) {
        NamesAreFree(Renamed(cleared, retained), queryId, items);
        WriteAllOutcome(Renamed(cleared, retained), queryId, items, 1, t.nextRow);
      }
    }
  }

  /** Renaming is never blocked when the route has no parameter with a reserved name: any swap or
      permutation of names goes through. */
  lemma {:induction false} UnreservedNamesNeverBlock(rows: Rows, queryId: nat, items: seq<Item>)
    requires Owned(rows, queryId, items)
    requires forall id | id in IdsOf(rows, queryId) :: !IsReserved(Upper(rows[id].name))
    ensures !Blocked(rows, Retained(items))
  {
    var ids := Retained(items);
    forall i, j | 0 <= i < j < |ids| && ids[j] in rows
      ensures Upper(rows[ids[j]].name) != Upper(TemporaryName(ids[i]))
    {
      TemporaryNamesAreReserved(ids[i]);
      assert ids[j] in set id | id in ids;
    }
  }

  /** What a publishable configuration says about the names of a snapshot. */
  lemma {:induction false} AcceptedSnapshot(runtime: Runtime, q: Query, items: seq<Item>)
    requires CheckConfiguration(runtime, q.route, q.sql, q.httpMethod, Definitions(items)).None?
    ensures Distinct(ItemNames(items))
    ensures forall name | name in ItemNames(items) :: !IsReserved(name)
  {
    BindingTheorems.AcceptedNames(runtime, q.route, q.sql, q.httpMethod, Definitions(items));
    CheckedNames(runtime, Definitions(items));
  }

  lemma {:induction false} CheckedNames(runtime: Runtime, defs: seq<Definition>)
    requires forall d | d in defs :: CheckDefinition(runtime, d).None?
    ensures forall name | name in CanonicalNames(defs) :: !IsReserved(name)
  {
    forall name | name in CanonicalNames(defs) ensures !IsReserved(name) {
      var k :| 0 <= k < |defs| && CanonicalNames(defs)[k] == name;
      assert defs[k] in defs;
    }
  }

  lemma {:induction false} SnapshotOutcome(t: Tables, queryId: Option<nat>, q: Query, items: seq<Item>)
    requires Valid(t)
    requires Distinct(ItemNames(items)) && forall name | name in ItemNames(items) :: !IsReserved(name)
    ensures WriteSnapshot(t, queryId, q, items).Ok?
            <==> && WriteQuery(t, queryId, q).Ok?
                 && Owned(t.rows, WriteQuery(t, queryId, q).value.1, items)
                 && !Blocked(t.rows, Retained(items))
    ensures WriteSnapshot(t, queryId, q, items).Ok? ==>
              var (saved, id) := WriteSnapshot(t, queryId, q, items).value;
              && id == WriteQuery(t, queryId, q).value.1
              && saved.queries == t.queries[id := q]
              && saved.nextQuery == WriteQuery(t, queryId, q).value.0.nextQuery
              && saved.rows == Others(t.rows, id) + Written(id, items, 1, t.nextRow)
  {
    if WriteQuery(t, queryId, q).Ok? {
      var (written, id) := WriteQuery(t, queryId, q).value;
      WriteParametersOutcome(written, id, items);
    }
  }

  /** Another query is stored under this route and method. */
  predicate RouteInUse(t: Tables, queryId: Option<nat>, route: string, httpMethod: string) {
    exists k | k in t.queries ::
      Some(k) != queryId && t.queries[k].route == route && t.queries[k].httpMethod == httpMethod
  }

  /** The query that is saved: the one given, or a new one. */
  function SavedId(t: Tables, queryId: Option<nat>): nat {
    if queryId.Some? then queryId.value else t.nextQuery
  }

  function NextQuery(t: Tables, queryId: Option<nat>): nat {
    if queryId.Some? then t.nextQuery else t.nextQuery + 1
  }

  predicate Exists(t: Tables, queryId: Option<nat>) {
    queryId.Some? ==> queryId.value in t.queries
  }

  lemma WriteQueryOutcome(t: Tables, queryId: Option<nat>, q: Query)
    requires Valid(t)
    ensures WriteQuery(t, queryId, q).Ok? <==> Exists(t, queryId) && !RouteInUse(t, queryId, q.route, q.httpMethod)
    ensures WriteQuery(t, queryId, q).Ok? ==>
              var (written, id) := WriteQuery(t, queryId, q).value;
              && id == SavedId(t, queryId) && written.queries == t.queries[id := q]
              && written.rows == t.rows && written.nextRow == t.nextRow
              && written.nextQuery == NextQuery(t, queryId)
    ensures WriteQuery(t, queryId, q).Err? ==>
              WriteQuery(t, queryId, q).error == if Exists(t, queryId) then RouteTaken else QueryMissing
  {
    var id := SavedId(t, queryId);
    assert forall k | k in t.queries :: k != id <==> Some(k) != queryId;
  }

  /** Why the parameters are not written. */
  lemma WriteParametersError(t: Tables, queryId: nat, items: seq<Item>)
    requires WriteParameters(t, queryId, items).Err?
    ensures WriteParameters(t, queryId, items).error
            == if Owned(t.rows, queryId, items) then NameTaken else ForeignParameter
  {
  }

  /** Main result. A snapshot is saved exactly when its configuration is publishable, the query exists if
      one is given, no other query is stored under the same route and method, the rows it retains belong
      to the query, and renaming is not blocked; otherwise the first of these that fails is reported. The
      query is then the one given, or a new one, and holds what was asked for; the parameters are those of
      the other queries and the snapshot, nothing else. */
  lemma SaveOutcome(
    runtime: Runtime, t: Tables, queryId: Option<nat>, query: Query, items: seq<Item>)
    requires Valid(t)
    ensures var route, httpMethod, id := Routes.Normalize(query.route), Upper(query.httpMethod), SavedId(t, queryId);
            var problem := CheckConfiguration(runtime, route, query.sql, httpMethod, Definitions(items));
            var r := Save(runtime, t, queryId, query, items);
            && (r.Ok? <==> && problem.None? && Exists(t, queryId) && !RouteInUse(t, queryId, route, httpMethod)
                           && Owned(t.rows, id, items) && !Blocked(t.rows, Retained(items)))
            && (r.Err? ==>
                  r.error == if problem.Some? then Refused(problem.value)
                             else if !Exists(t, queryId) then QueryMissing
                             else if RouteInUse(t, queryId, route, httpMethod) then RouteTaken
                             else if !Owned(t.rows, id, items) then ForeignParameter
                             else NameTaken)
            && (queryId.None? ==> id !in t.queries)
            && (r.Ok? ==>
                  && r.value.1 == id && r.value.0.nextQuery == NextQuery(t, queryId)
                  && r.value.0.queries
                     == t.queries[id := Query(route, httpMethod, query.sql, query.description, query.tags, query.active)]
                  && r.value.0.rows == Others(t.rows, id) + Written(id, items, 1, t.nextRow))
  {
    var q := Normalized(query);
    WriteQueryOutcome(t, queryId, q);
    if CheckConfiguration(runtime, q.route, q.sql, q.httpMethod, Definitions(items)).None? {
      AcceptedSnapshot(runtime, q, items);
      SnapshotOutcome(t, queryId, q, items);
      if WriteSnapshot(t, queryId, q, items).Err? {
        SnapshotError(t, queryId, q, items);
      }
    }
  }

  lemma SnapshotError(t: Tables, queryId: Option<nat>, q: Query, items: seq<Item>)
    requires Valid(t) && WriteSnapshot(t, queryId, q, items).Err?
    ensures WriteSnapshot(t, queryId, q, items).error
            == if !Exists(t, queryId) then QueryMissing
               else if RouteInUse(t, queryId, q.route, q.httpMethod) then RouteTaken
               else if !Owned(t.rows, SavedId(t, queryId), items) then ForeignParameter
               else NameTaken
  {
    WriteQueryOutcome(t, queryId, q);
    if WriteQuery(t, queryId, q).Ok? {
      var (written, id) := WriteQuery(t, queryId, q).value;
      WriteParametersError(written, id, items);
    }
  }

  lemma {:induction false} RenameAllKeepsUnique(rows: Rows, ids: seq<nat>)
    requires UniqueNames(rows) && RenameAll(rows, ids).Some?
    ensures UniqueNames(RenameAll(rows, ids).value)
    decreases |ids|
  {
    if ids != [] {
      var next := if ids[0] !in rows then rows
                  else Put(rows, ids[0], rows[ids[0]].(name := TemporaryName(ids[0]))).value;
      RenameAllKeepsUnique(next, ids[1..]);
    }
  }

  lemma {:induction false} WriteAllKeepsTables(rows: Rows, queryId: nat, items: seq<Item>, position: nat, nextRow: nat)
    requires UniqueNames(rows) && WriteAll(rows, queryId, items, position, nextRow).Some?
    requires forall id | id in rows :: id < nextRow
    requires forall id | id in Retained(items) :: id < nextRow
    ensures var (r, following) := WriteAll(rows, queryId, items, position, nextRow).value;
            UniqueNames(r) && nextRow <= following && forall id | id in r :: id < following
    decreases |items|
  {
    if items != [] {
      var (id, following) := Target(items[0], nextRow);
      assert items[0].id.Some? ==> Retained(items)[0] == id && id in Retained(items);
      assert id < following;
      assert forall k | k in rows[id := RowOf(queryId, items[0], position)] :: k == id || k in rows;
      assert forall k | k in Retained(items[1..]) :: k in Retained(items);
      WriteAllKeepsTables(Put(rows, id, RowOf(queryId, items[0], position)).value, queryId, items[1..], position + 1, following);
    }
  }

  /** A saved snapshot leaves valid tables: names unique within every query, routes unique, ids below
      the automatic ones. */
  lemma SaveKeepsTablesValid(
    runtime: Runtime, t: Tables, queryId: Option<nat>, query: Query, items: seq<Item>)
    requires Valid(t) && Save(runtime, t, queryId, query, items).Ok?
    ensures Valid(Save(runtime, t, queryId, query, items).value.0)
  {
    var (saved, id) := Save(runtime, t, queryId, query, items).value;
    SaveOutcome(runtime, t, queryId, query, items);
    WriteQueryOutcome(t, queryId, Normalized(query));
    SavedInParts(runtime, t, queryId, query, items);
    SnapshotKeepsTables(t, queryId, Normalized(query), items, saved);
  }

  lemma SavedInParts(runtime: Runtime, t: Tables, queryId: Option<nat>, query: Query, items: seq<Item>)
    requires Save(runtime, t, queryId, query, items).Ok?
    ensures WriteQuery(t, queryId, Normalized(query)).Ok?
    ensures var (written, id) := WriteQuery(t, queryId, Normalized(query)).value;
            WriteParameters(written, id, items) == Ok(Save(runtime, t, queryId, query, items).value.0)
  {
    SaveWrites(runtime, t, queryId, query, items);
    SnapshotInParts(t, queryId, Normalized(query), items);
  }

  lemma SaveWrites(runtime: Runtime, t: Tables, queryId: Option<nat>, query: Query, items: seq<Item>)
    requires Save(runtime, t, queryId, query, items).Ok?
    ensures Save(runtime, t, queryId, query, items) == WriteSnapshot(t, queryId, Normalized(query), items)
  {
  }

  lemma SnapshotInParts(t: Tables, queryId: Option<nat>, q: Query, items: seq<Item>)
    requires WriteSnapshot(t, queryId, q, items).Ok?
    ensures WriteQuery(t, queryId, q).Ok?
    ensures var (written, id) := WriteQuery(t, queryId, q).value;
            WriteParameters(written, id, items) == Ok(WriteSnapshot(t, queryId, q, items).value.0)
  {
  }

  lemma SnapshotKeepsTables(
    t: Tables, queryId: Option<nat>, q: Query, items: seq<Item>, saved: Tables)
    requires Valid(t) && WriteQuery(t, queryId, q).Ok?
    requires var (written, id) := WriteQuery(t, queryId, q).value;
             WriteParameters(written, id, items) == Ok(saved)
             && saved.rows == Others(t.rows, id) + Written(id, items, 1, t.nextRow)
    ensures Valid(saved)
  {
    var (written, id) := WriteQuery(t, queryId, q).value;
    QueryKeepsTables(t, queryId, q);
    WriteParametersKeepsTables(written, id, items);
    RowsHaveQueries(t.rows, written.queries, id, items, t.nextRow);
  }

  lemma QueryKeepsTables(t: Tables, queryId: Option<nat>, q: Query)
    requires Valid(t) && WriteQuery(t, queryId, q).Ok?
    ensures var (written, id) := WriteQuery(t, queryId, q).value;
            && written.rows == t.rows && written.nextRow == t.nextRow
            && id in written.queries && t.queries.Keys <= written.queries.Keys
            && UniqueRoutes(written.queries) && (forall k | k in written.queries :: k < written.nextQuery)
  {
  }

  lemma {:induction false} RowsHaveQueries(
    rows: Rows, queries: map<nat, Query>, queryId: nat, items: seq<Item>, nextRow: nat)
    requires (forall id | id in rows :: rows[id].queryId in queries) && queryId in queries
    ensures var saved := Others(rows, queryId) + Written(queryId, items, 1, nextRow);
            forall id | id in saved :: saved[id].queryId in queries
  {
    WrittenKeys(queryId, items, 1, nextRow);
  }

  lemma WriteParametersKeepsTables(t: Tables, queryId: nat, items: seq<Item>)
    requires UniqueNames(t.rows) && (forall id | id in t.rows :: id < t.nextRow)
    requires WriteParameters(t, queryId, items).Ok?
    ensures var r := WriteParameters(t, queryId, items).value;
            && UniqueNames(r.rows) && (forall id | id in r.rows :: id < r.nextRow)
            && r.queries == t.queries && r.nextQuery == t.nextQuery
  {
    var cleared := Cleared(t.rows, queryId, items);
    ClearedRows(t.rows, queryId, items);
    RenameAllKeepsUnique(cleared, Retained(items));
    RenameAllKeepsKeys(cleared, Retained(items));
    WriteAllKeepsTables(RenameAll(cleared, Retained(items)).value, queryId, items, 1, t.nextRow);
  }

  lemma {:induction false} RenameAllKeepsKeys(rows: Rows, ids: seq<nat>)
    requires RenameAll(rows, ids).Some?
    ensures RenameAll(rows, ids).value.Keys == rows.Keys
    decreases |ids|
  {
    if ids != [] {
      var next := if ids[0] !in rows then rows
                  else Put(rows, ids[0], rows[ids[0]].(name := TemporaryName(ids[0]))).value;
      RenameAllKeepsKeys(next, ids[1..]);
    }
  }

  // ----- reading back

  /** The ids of the rows a snapshot is written to, in its order. */
  function FinalIds(items: seq<Item>, nextRow: nat): (r: seq<nat>)
    ensures |r| == |items|
    decreases |items|
  {
    if items == [] then []
    else
      var (id, following) := Target(items[0], nextRow);
      [id] + FinalIds(items[1..], following)
  }

  lemma {:induction false} FinalIdsAreWritten(queryId: nat, items: seq<Item>, position: nat, nextRow: nat)
    ensures forall id :: id in FinalIds(items, nextRow) <==> id in Written(queryId, items, position, nextRow)
    decreases |items|
  {
    if items != [] {
      var (id, following) := Target(items[0], nextRow);
      FinalIdsAreWritten(queryId, items[1..], position + 1, following);
      assert FinalIds(items, nextRow) == [id] + FinalIds(items[1..], following);
    }
  }

  lemma {:induction false} FinalIdsAreDistinct(items: seq<Item>, nextRow: nat)
    requires Distinct(Retained(items)) && forall id | id in Retained(items) :: id < nextRow
    ensures Distinct(FinalIds(items, nextRow))
    ensures forall id | id in FinalIds(items, nextRow) :: id in Retained(items) || nextRow <= id
    decreases |items|
  {
    if items != [] {
      var (id, following) := Target(items[0], nextRow);
      RetainedTail(items);
      FinalIdsAreDistinct(items[1..], following);
      var rest := FinalIds(items[1..], following);
      assert FinalIds(items, nextRow) == [id] + rest;
      assert id !in rest;
    }
  }

  lemma {:induction false} WrittenInOrder(queryId: nat, items: seq<Item>, position: nat, nextRow: nat, k: nat)
    requires k < |items| && Distinct(FinalIds(items, nextRow))
    ensures var rows := Written(queryId, items, position, nextRow);
            var id := FinalIds(items, nextRow)[k];
            id in rows && rows[id] == RowOf(queryId, items[k], position + k)
    decreases |items|
  {
    var (id, following) := Target(items[0], nextRow);
    var ids := FinalIds(items, nextRow);
    assert ids[1..] == FinalIds(items[1..], following);
    DistinctTail(ids);
    if k == 0 {
      FinalIdsAreWritten(queryId, items[1..], position + 1, following);
    } else {
      WrittenInOrder(queryId, items[1..], position + 1, following, k - 1);
    }
  }

  /** `ids` lists the rows of a query by position; rows with equal positions may come in any order. */
  ghost predicate ReadsAs(rows: Rows, queryId: nat, ids: seq<nat>) {
    && Distinct(ids)
    && (forall k :: 0 <= k < |ids| ==> ids[k] in rows && rows[ids[k]].queryId == queryId)
    && (forall id | id in IdsOf(rows, queryId) :: id in ids)
    && (forall i, j :: 0 <= i < j < |ids| ==> rows[ids[i]].position <= rows[ids[j]].position)
  }

  /** Only one list reads a query whose positions count from one. */
  lemma {:induction false} ReadingIsUnique(rows: Rows, queryId: nat, ids: seq<nat>, want: seq<nat>, k: nat)
    requires ReadsAs(rows, queryId, ids) && Distinct(want)
    requires forall j :: 0 <= j < |want| ==>
               want[j] in rows && rows[want[j]].queryId == queryId && rows[want[j]].position == j + 1
    requires forall id | id in IdsOf(rows, queryId) :: id in want
    requires k <= |ids| && k <= |want| && forall i :: 0 <= i < k ==> ids[i] == want[i]
    ensures ids == want
    decreases |want| - k
  {
    assert k < |want| ==> want[k] in IdsOf(rows, queryId) && want[k] in ids;
    if k < |ids| {
      assert ids[k] in IdsOf(rows, queryId);
      var m :| 0 <= m < |want| && want[m] == ids[k];
      assert m >= k;
      var j :| 0 <= j < |ids| && ids[j] == want[k];
      assert j >= k;
      ReadingIsUnique(rows, queryId, ids, want, k + 1);
    }
  }

  /** The text, unless it is empty. */
  function NonEmpty(s: Option<string>): Option<string> {
    if s.Some? && s.value != "" then s else None
  }

  /** A row holds an item at its place: its definition under the canonical name, with empty texts
      absent. */
  predicate Holds(row: Row, queryId: nat, item: Item, position: nat) {
    var d := item.definition;
    row == Row(queryId, Upper(d.name), d.kind, d.source, position, NonEmpty(d.default), d.required,
               NonEmpty(item.description), NonEmpty(d.rule))
  }

  lemma RowHolds(queryId: nat, item: Item, position: nat)
    ensures Holds(RowOf(queryId, item, position), queryId, item, position)
  {
  }

  lemma RowsReadBack(
    runtime: Runtime, t: Tables, queryId: Option<nat>, query: Query, items: seq<Item>, ids: seq<nat>)
    requires Valid(t) && Save(runtime, t, queryId, query, items).Ok?
    requires var (saved, id) := Save(runtime, t, queryId, query, items).value;
             ReadsAs(saved.rows, id, ids)
    ensures var (saved, id) := Save(runtime, t, queryId, query, items).value;
            && |ids| == |items|
            && forall k :: 0 <= k < |items| ==>
                 ids[k] in saved.rows && saved.rows[ids[k]] == RowOf(id, items[k], k + 1)
  {
    var (saved, id) := Save(runtime, t, queryId, query, items).value;
    SaveOutcome(runtime, t, queryId, query, items);
    SavedRows(t.rows, id, items, t.nextRow);
    ReadingIsUnique(saved.rows, id, ids, FinalIds(items, t.nextRow), 0);
  }

  /** The rows hold the items, in order. */
  ghost predicate AllHold(rows: Rows, ids: seq<nat>, queryId: nat, items: seq<Item>) {
    |ids| == |items| && forall k :: 0 <= k < |ids| ==> ids[k] in rows && Holds(rows[ids[k]], queryId, items[k], k + 1)
  }

  lemma RowsHold(rows: Rows, ids: seq<nat>, queryId: nat, items: seq<Item>)
    requires |ids| == |items|
    requires forall k :: 0 <= k < |items| ==> ids[k] in rows && rows[ids[k]] == RowOf(queryId, items[k], k + 1)
    ensures AllHold(rows, ids, queryId, items)
  {
    forall k | 0 <= k < |ids| ensures ids[k] in rows && Holds(rows[ids[k]], queryId, items[k], k + 1) {
      RowHolds(queryId, items[k], k + 1);
    }
  }

  /** Reading a saved snapshot back by position returns its items, in its order, at positions one to n. */
  lemma SnapshotReadsBack(
    runtime: Runtime, t: Tables, queryId: Option<nat>, query: Query, items: seq<Item>, ids: seq<nat>)
    requires Valid(t) && Save(runtime, t, queryId, query, items).Ok?
    requires var (saved, id) := Save(runtime, t, queryId, query, items).value;
             ReadsAs(saved.rows, id, ids)
    ensures var (saved, id) := Save(runtime, t, queryId, query, items).value;
            AllHold(saved.rows, ids, id, items)
  {
    var (saved, id) := Save(runtime, t, queryId, query, items).value;
    RowsReadBack(runtime, t, queryId, query, items, ids);
    RowsHold(saved.rows, ids, id, items);
  }

  lemma {:induction false} SavedRows(rows: Rows, queryId: nat, items: seq<Item>, nextRow: nat)
    requires Owned(rows, queryId, items) && forall id | id in rows :: id < nextRow
    ensures var saved := Others(rows, queryId) + Written(queryId, items, 1, nextRow);
            var ids := FinalIds(items, nextRow);
            && Distinct(ids)
            && (forall id :: id in ids <==> id in IdsOf(saved, queryId))
            && (forall k :: 0 <= k < |items| ==>
                  ids[k] in saved && saved[ids[k]] == RowOf(queryId, items[k], k + 1))
  {
    OwnedAreKnown(rows, queryId, items);
    FinalIdsAreDistinct(items, nextRow);
    SavedIds(rows, queryId, items, nextRow);
    forall k | 0 <= k < |items|
      ensures var saved := Others(rows, queryId) + Written(queryId, items, 1, nextRow);
              var id := FinalIds(items, nextRow)[k];
              id in saved && saved[id] == RowOf(queryId, items[k], k + 1)
    {
      WrittenInOrder(queryId, items, 1, nextRow, k);
    }
  }

  lemma {:induction false} OwnedAreKnown(rows: Rows, queryId: nat, items: seq<Item>)
    requires Owned(rows, queryId, items)
    ensures forall id | id in Retained(items) :: id in IdsOf(rows, queryId)
  {
    assert forall k | 0 <= k < |Retained(items)| :: Retained(items)[k] in set id | id in Retained(items);
  }

  /** The rows of the query are those written. */
  lemma {:induction false} SavedIds(rows: Rows, queryId: nat, items: seq<Item>, nextRow: nat)
    ensures var saved := Others(rows, queryId) + Written(queryId, items, 1, nextRow);
            forall id :: id in FinalIds(items, nextRow) <==> id in IdsOf(saved, queryId)
  {
    FinalIdsAreWritten(queryId, items, 1, nextRow);
    WrittenKeys(queryId, items, 1, nextRow);
  }

  // ----- what the endpoint works with

  /** The definition a row is read as. */
  function DefinitionOf(row: Row): Definition {
    Definition(row.name, row.kind, row.source, row.required, row.default, row.rule)
  }

  function DefinitionsOf(rows: Rows, ids: seq<nat>): (r: seq<Definition>)
    requires forall k :: 0 <= k < |ids| ==> ids[k] in rows
    ensures |r| == |ids|
    ensures forall k :: 0 <= k < |r| ==> r[k] == DefinitionOf(rows[ids[k]])
  {
    seq(|ids|, k requires 0 <= k < |ids| => DefinitionOf(rows[ids[k]]))
  }

  /** The definitions read back are those of the snapshot, as stored. */
  lemma DefinitionsReadBack(
    runtime: Runtime, t: Tables, queryId: Option<nat>, query: Query, items: seq<Item>, ids: seq<nat>)
    requires Valid(t) && Save(runtime, t, queryId, query, items).Ok?
    requires var (saved, id) := Save(runtime, t, queryId, query, items).value;
             ReadsAs(saved.rows, id, ids)
    ensures var (saved, id) := Save(runtime, t, queryId, query, items).value;
            DefinitionsOf(saved.rows, ids) == BindingTheorems.StoredAll(Definitions(items))
  {
    var (saved, id) := Save(runtime, t, queryId, query, items).value;
    SnapshotReadsBack(runtime, t, queryId, query, items, ids);
    HeldDefinitions(saved.rows, ids, id, items);
  }

  lemma HeldDefinitions(rows: Rows, ids: seq<nat>, queryId: nat, items: seq<Item>)
    requires AllHold(rows, ids, queryId, items)
    ensures DefinitionsOf(rows, ids) == BindingTheorems.StoredAll(Definitions(items))
  {
    forall k | 0 <= k < |ids|
      ensures DefinitionsOf(rows, ids)[k] == BindingTheorems.StoredAll(Definitions(items))[k]
    {
      HeldDefinition(rows[ids[k]], queryId, items[k], k + 1);
    }
  }

  lemma HeldDefinition(row: Row, queryId: nat, item: Item, position: nat)
    requires Holds(row, queryId, item, position)
    ensures DefinitionOf(row) == Stored(item.definition)
  {
  }

  /** Main result, from the save to the request. Once a snapshot is saved, whatever list reads its
      parameters by position, a request that binds to them gives every bind of the stored statement that
      is not reserved the value its definition decides, and passes nothing else. */
  lemma SavedQueryBinds(
    runtime: Runtime, t: Tables, queryId: Option<nat>, query: Query, items: seq<Item>, ids: seq<nat>, inputs: Inputs)
    requires Valid(t) && Save(runtime, t, queryId, query, items).Ok?
    requires var (saved, id) := Save(runtime, t, queryId, query, items).value;
             && ReadsAs(saved.rows, id, ids)
             && Bind(runtime, DefinitionsOf(saved.rows, ids), inputs).Ok?
    ensures var (saved, id) := Save(runtime, t, queryId, query, items).value;
            && id in saved.queries && saved.queries[id] == Normalized(query)
            && BindingTheorems.BindsCompletely(runtime, saved.queries[id].sql, DefinitionsOf(saved.rows, ids), inputs)
  {
    var q := Normalized(query);
    SaveOutcome(runtime, t, queryId, query, items);
    DefinitionsReadBack(runtime, t, queryId, query, items, ids);
    BindingTheorems.StoredBindingIsComplete(runtime, q.route, q.sql, q.httpMethod, Definitions(items), inputs);
  }
}

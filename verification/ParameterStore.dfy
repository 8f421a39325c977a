/** The tables of routes and their parameters, and the operations that rewrite a route's whole
    parameter list. Every SQL statement is one step on the table, refused when it would break the
    uniqueness of (query, name), where names are compared without case. */
module ParameterStore {
  import opened Wrappers
  import opened Text
  import opened Parameters
  import Routes

  datatype Row = Row(
    queryId: nat,
    name: string,
    kind: string,
    source: string,
    position: nat,
    default: Option<string>,
    required: bool,
    description: Option<string>,
    rule: Option<string>)

  datatype Query = Query(
    route: string, httpMethod: string, sql: string, description: string, tags: string, active: bool)

  type Rows = map<nat, Row>

  /** `nextQuery` and `nextRow` are the automatic ids, never used before. */
  datatype Tables = Tables(queries: map<nat, Query>, rows: Rows, nextQuery: nat, nextRow: nat)

  // ----- constraints

  predicate UniqueNames(rows: Rows) {
    forall a, b | a in rows && b in rows && a != b && rows[a].queryId == rows[b].queryId ::
      Upper(rows[a].name) != Upper(rows[b].name)
  }

  predicate UniqueRoutes(queries: map<nat, Query>) {
    forall a, b | a in queries && b in queries && a != b ::
      (queries[a].route, queries[a].httpMethod) != (queries[b].route, queries[b].httpMethod)
  }

  ghost predicate Valid(t: Tables) {
    && UniqueNames(t.rows) && UniqueRoutes(t.queries)
    && (forall id | id in t.rows :: id < t.nextRow && t.rows[id].queryId in t.queries)
    && (forall id | id in t.queries :: id < t.nextQuery)
  }

  predicate Clashes(rows: Rows, id: nat, row: Row) {
    exists k | k in rows :: k != id && rows[k].queryId == row.queryId && Upper(rows[k].name) == Upper(row.name)
  }

  /** One INSERT or UPDATE. */
  function Put(rows: Rows, id: nat, row: Row): (r: Option<Rows>)
    ensures r.Some? && UniqueNames(rows) ==> UniqueNames(r.value)
  {
    if Clashes(rows, id, row) then None else Some(rows[id := row])
  }

  function IdsOf(rows: Rows, queryId: nat): set<nat> {
    set id | id in rows && rows[id].queryId == queryId
  }

  // ----- temporary names

  function Decimal(n: nat): string {
    if n < 10 then ["0123456789"[n]] else Decimal(n / 10) + ["0123456789"[n % 10]]
  }

  const TEMPORARY := "__f2a_tmp_"

  function TemporaryName(id: nat): string {
    TEMPORARY + Decimal(id)
  }

  lemma {:induction false} DecimalIsInjective(m: nat, n: nat)
    requires Decimal(m) == Decimal(n)
    ensures m == n
  {
    var digits := "0123456789";
    assert forall i, j :: 0 <= i < j < 10 ==> digits[i] != digits[j];
    assert Decimal(m)[|Decimal(m)| - 1] == digits[m % 10];
    assert Decimal(n)[|Decimal(n)| - 1] == digits[n % 10];
    assert Decimal(m)[..|Decimal(m)| - 1] == if m < 10 then "" else Decimal(m / 10);
    assert Decimal(n)[..|Decimal(n)| - 1] == if n < 10 then "" else Decimal(n / 10);
    if m >= 10 && n >= 10 {
      DecimalIsInjective(m / 10, n / 10);
    }
  }

  lemma {:induction false} DecimalHasNoLetters(n: nat)
    ensures Upper(Decimal(n)) == Decimal(n)
    ensures Decimal(n) != ""
  {
    if n >= 10 {
      DecimalHasNoLetters(n / 10);
      UpperAppend(Decimal(n / 10), ["0123456789"[n % 10]]);
    }
  }

  lemma TemporaryNamesDiffer(m: nat, n: nat)
    requires Upper(TemporaryName(m)) == Upper(TemporaryName(n))
    ensures m == n
  {
    UpperAppend(TEMPORARY, Decimal(m));
    UpperAppend(TEMPORARY, Decimal(n));
    DecimalHasNoLetters(m);
    DecimalHasNoLetters(n);
    assert Upper(TemporaryName(m))[|TEMPORARY|..] == Decimal(m);
    assert Upper(TemporaryName(n))[|TEMPORARY|..] == Decimal(n);
    DecimalIsInjective(m, n);
  }

  lemma TemporaryNamesAreReserved(id: nat)
    ensures IsReserved(Upper(TemporaryName(id)))
  {
    UpperAppend(TEMPORARY, Decimal(id));
    assert "__F2A_" <= Upper(TEMPORARY);
  }

  // ----- the snapshot

  datatype Item = Item(id: Option<nat>, definition: Definition, description: Option<string>)

  datatype SaveError =
    | Refused(error: ConfigError)
    | RouteTaken
    | QueryMissing
    | ForeignParameter
    | NameTaken

  function Definitions(items: seq<Item>): (r: seq<Definition>)
    ensures |r| == |items|
    ensures forall k :: 0 <= k < |r| ==> r[k] == items[k].definition
  {
    if items == [] then [] else [items[0].definition] + Definitions(items[1..])
  }

  /** The ids of the items that stand for existing rows. */
  function Retained(items: seq<Item>): seq<nat> {
    if items == [] then []
    else (match items[0].id case None => [] case Some(id) => [id]) + Retained(items[1..])
  }

  function RowOf(queryId: nat, item: Item, position: nat): Row {
    var d := Stored(item.definition);
    Row(queryId, d.name, d.kind, d.source, position, d.default, d.required,
        if Given(item.description) then item.description else None, d.rule)
  }

  function RenameAll(rows: Rows, ids: seq<nat>): Option<Rows>
    decreases |ids|
  {
    if ids == [] then Some(rows)
    else if ids[0] !in rows then RenameAll(rows, ids[1..])
    else
      match Put(rows, ids[0], rows[ids[0]].(name := TemporaryName(ids[0])))
      case None => None
      case Some(next) => RenameAll(next, ids[1..])
  }

  /** Where an item is written, and the next automatic id. */
  function Target(item: Item, nextRow: nat): (nat, nat) {
    match item.id
    case None => (nextRow, nextRow + 1)
    case Some(id) => (id, nextRow)
  }

  function WriteAll(rows: Rows, queryId: nat, items: seq<Item>, position: nat, nextRow: nat): Option<(Rows, nat)>
    decreases |items|
  {
    if items == [] then Some((rows, nextRow))
    else
      var (id, following) := Target(items[0], nextRow);
      match Put(rows, id, RowOf(queryId, items[0], position))
      case None => None
      case Some(next) => WriteAll(next, queryId, items[1..], position + 1, following)
  }

  function WriteQuery(t: Tables, queryId: Option<nat>, q: Query): Result<(Tables, nat), SaveError> {
    if queryId.Some? && queryId.value !in t.queries then Err(QueryMissing)
    else
      var id := if queryId.Some? then queryId.value else t.nextQuery;
      if exists k | k in t.queries :: k != id && (t.queries[k].route, t.queries[k].httpMethod) == (q.route, q.httpMethod)
      then Err(RouteTaken)
      else Ok((t.(queries := t.queries[id := q],
                  nextQuery := if queryId.Some? then t.nextQuery else t.nextQuery + 1), id))
  }

  /** The row as the routes table stores it. */
  function Normalized(q: Query): Query {
    q.(route := Routes.Normalize(q.route), httpMethod := Upper(q.httpMethod))
  }

  function WriteParameters(t: Tables, queryId: nat, items: seq<Item>): Result<Tables, SaveError> {
    var retained := Retained(items);
    var existing := IdsOf(t.rows, queryId);
    if !Distinct(retained) || !((set id | id in retained) <= existing) then Err(ForeignParameter)
    else
      var cleared := t.rows - (existing - set id | id in retained);
      match RenameAll(cleared, retained)
      case None => Err(NameTaken)
      case Some(renamed) =>
        match WriteAll(renamed, queryId, items, 1, t.nextRow)
        case None => Err(NameTaken)
        case Some((rows, nextRow)) => Ok(t.(rows := rows, nextRow := nextRow))
  }

  function WriteSnapshot(t: Tables, queryId: Option<nat>, q: Query, items: seq<Item>)
    : Result<(Tables, nat), SaveError>
  {
    match WriteQuery(t, queryId, q)
    case Err(e) => Err(e)
    case Ok((written, id)) =>
      match WriteParameters(written, id, items)
      case Err(e) => Err(e)
      case Ok(saved) => Ok((saved, id))
  }

  function Save(runtime: Runtime, t: Tables, queryId: Option<nat>, query: Query, items: seq<Item>)
    : Result<(Tables, nat), SaveError>
  {
    var q := Normalized(query);
    match CheckConfiguration(runtime, q.route, q.sql, q.httpMethod, Definitions(items))
    case Some(e) => Err(Refused(e))
    case None => WriteSnapshot(t, queryId, q, items)
  }

  // ----- no statement of the snapshot fails

  /** A row still to be renamed bears the temporary name of one renamed before it. */
  predicate Blocked(rows: Rows, ids: seq<nat>) {
    exists i, j :: 0 <= i < j < |ids| && ids[j] in rows
                   && Upper(rows[ids[j]].name) == Upper(TemporaryName(ids[i]))
  }

  function Renamed(rows: Rows, ids: seq<nat>): Rows {
    map id | id in rows :: if id in ids then rows[id].(name := TemporaryName(id)) else rows[id]
  }

  /** Renaming goes through unless it is blocked, and then every row bears its temporary name.
      `done` are the rows renamed so far. */
  lemma {:induction false} RenameAllOutcome(rows: Rows, queryId: nat, done: set<nat>, ids: seq<nat>)
    requires Distinct(ids) && (forall id | id in ids :: id !in done)
    requires IdsOf(rows, queryId) == done + set id | id in ids
    requires forall id | id in done :: rows[id].name == TemporaryName(id)
    ensures RenameAll(rows, ids).Some? <==> !Blocked(rows, ids)
    ensures RenameAll(rows, ids).Some? ==> RenameAll(rows, ids).value == Renamed(rows, ids)
    decreases |ids|
  {
    if ids == [] {
      assert Renamed(rows, ids) == rows;
    } else {
      var id := ids[0];
      FirstRename(rows, queryId, done, ids);
      var row := rows[id].(name := TemporaryName(id));
      if !Clashes(rows, id, row) {
        RenameStep(rows, queryId, done, ids);
        RenameAllOutcome(rows[id := row], queryId, done + {id}, ids[1..]);
        BlockedTail(rows, ids, rows[id := row]);
      }
    }
  }

  lemma RenameStep(rows: Rows, queryId: nat, done: set<nat>, ids: seq<nat>)
    requires ids != [] && Distinct(ids) && (forall id | id in ids :: id !in done)
    requires IdsOf(rows, queryId) == done + set id | id in ids
    requires forall id | id in done :: rows[id].name == TemporaryName(id)
    requires ids[0] in rows && rows[ids[0]].queryId == queryId
    ensures var next := rows[ids[0] := rows[ids[0]].(name := TemporaryName(ids[0]))];
            && (forall id | id in ids[1..] :: id !in done + {ids[0]})
            && IdsOf(next, queryId) == (done + {ids[0]}) + (set id | id in ids[1..])
            && (forall id | id in done + {ids[0]} :: next[id].name == TemporaryName(id))
            && Renamed(next, ids[1..]) == Renamed(rows, ids)
  {
    var next := rows[ids[0] := rows[ids[0]].(name := TemporaryName(ids[0]))];
    assert IdsOf(next, queryId) == IdsOf(rows, queryId);
    assert forall id | id in ids :: id == ids[0] || id in ids[1..];
    assert forall id | id in done :: id in IdsOf(rows, queryId);
  }

  lemma FirstRename(rows: Rows, queryId: nat, done: set<nat>, ids: seq<nat>)
    requires ids != [] && Distinct(ids) && (forall id | id in ids :: id !in done)
    requires IdsOf(rows, queryId) == done + set id | id in ids
    requires forall id | id in done :: rows[id].name == TemporaryName(id)
    ensures ids[0] in rows && rows[ids[0]].queryId == queryId
    ensures Clashes(rows, ids[0], rows[ids[0]].(name := TemporaryName(ids[0])))
            <==> exists j :: 0 < j < |ids| && ids[j] in rows
                             && Upper(rows[ids[j]].name) == Upper(TemporaryName(ids[0]))
  {
    var id := ids[0];
    assert id in IdsOf(rows, queryId);
    var row := rows[id].(name := TemporaryName(id));
    if Clashes(rows, id, row) {
      var k :| k in rows && k != id && rows[k].queryId == queryId && Upper(rows[k].name) == Upper(row.name);
      assert k in IdsOf(rows, queryId);
      if k in done {
        TemporaryNamesDiffer(k, id);
      }
      assert k in ids;
    }
    forall j | 0 < j < |ids| && ids[j] in rows && Upper(rows[ids[j]].name) == Upper(TemporaryName(id))
      ensures Clashes(rows, id, row)
    {
      assert ids[j] in IdsOf(rows, queryId);
    }
  }

  lemma BlockedTail(rows: Rows, ids: seq<nat>, next: Rows)
    requires ids != [] && Distinct(ids) && next.Keys == rows.Keys
    requires forall j :: 0 < j < |ids| && ids[j] in rows ==> next[ids[j]] == rows[ids[j]]
    requires !exists j :: 0 < j < |ids| && ids[j] in rows
                          && Upper(rows[ids[j]].name) == Upper(TemporaryName(ids[0]))
    ensures Blocked(next, ids[1..]) <==> Blocked(rows, ids)
  {
    if Blocked(rows, ids) {
      var i, j :| 0 <= i < j < |ids| && ids[j] in rows && Upper(rows[ids[j]].name) == Upper(TemporaryName(ids[i]));
      assert ids[1..][i - 1] == ids[i] && ids[1..][j - 1] == ids[j];
    }
    if Blocked(next, ids[1..]) {
      var i, j :| 0 <= i < j < |ids[1..]| && ids[1..][j] in next
                  && Upper(next[ids[1..][j]].name) == Upper(TemporaryName(ids[1..][i]));
      assert ids[i + 1] == ids[1..][i] && ids[j + 1] == ids[1..][j];
    }
  }

  /** The rows of a snapshot, by id. */
  function Written(queryId: nat, items: seq<Item>, position: nat, nextRow: nat): Rows
    decreases |items|
  {
    if items == [] then map[]
    else
      var (id, following) := Target(items[0], nextRow);
      map[id := RowOf(queryId, items[0], position)] + Written(queryId, items[1..], position + 1, following)
  }

  function ItemNames(items: seq<Item>): seq<string> {
    CanonicalNames(Definitions(items))
  }

  lemma {:induction false} ItemTail(items: seq<Item>)
    requires items != []
    ensures ItemNames(items) == [Upper(items[0].definition.name)] + ItemNames(items[1..])
    ensures Definitions(items)[1..] == Definitions(items[1..])
  {
    assert Definitions(items)[1..] == Definitions(items[1..]);
  }

  /** Once no row bears a name of the snapshot, every write goes through. */
  lemma {:induction false} WriteAllOutcome(rows: Rows, queryId: nat, items: seq<Item>, position: nat, nextRow: nat)
    requires Distinct(ItemNames(items)) && Distinct(Retained(items))
    requires forall id | id in Retained(items) :: id in rows && rows[id].queryId == queryId
    requires forall id | id in IdsOf(rows, queryId) :: Upper(rows[id].name) !in ItemNames(items)
    requires forall id | id in rows :: id < nextRow
    ensures var r := WriteAll(rows, queryId, items, position, nextRow);
            r.Some? && r.value.0 == rows + Written(queryId, items, position, nextRow)
    decreases |items|
  {
    if items != [] {
      var (id, following) := Target(items[0], nextRow);
      var row := RowOf(queryId, items[0], position);
      NewNameIsFree(rows, queryId, items, position, id);
      WriteStep(rows, queryId, items, position, nextRow);
      TailIsDistinct(items);
      WriteAllOutcome(rows[id := row], queryId, items[1..], position + 1, following);
      AddOne(rows, id, row, Written(queryId, items[1..], position + 1, following));
    }
  }

  lemma AddOne(rows: Rows, id: nat, row: Row, rest: Rows)
    ensures rows[id := row] + rest == rows + (map[id := row] + rest)
  {
  }

  lemma NewNameIsFree(rows: Rows, queryId: nat, items: seq<Item>, position: nat, id: nat)
    requires items != []
    requires forall k | k in IdsOf(rows, queryId) :: Upper(rows[k].name) !in ItemNames(items)
    ensures !Clashes(rows, id, RowOf(queryId, items[0], position))
  {
    ItemTail(items);
    UpperIsIdempotent(items[0].definition.name);
    assert forall k | k in rows && rows[k].queryId == queryId :: k in IdsOf(rows, queryId);
  }

  lemma DistinctTail<T>(s: seq<T>)
    requires s != [] && Distinct(s)
    ensures s[0] !in s[1..] && Distinct(s[1..])
  {
    assert forall j :: 0 <= j < |s| - 1 ==> s[1..][j] == s[j + 1];
  }

  lemma {:induction false} RetainedTail(items: seq<Item>)
    requires items != [] && Distinct(Retained(items))
    ensures Distinct(Retained(items[1..]))
    ensures forall id | id in Retained(items[1..]) :: id in Retained(items) && Some(id) != items[0].id
    ensures items[0].id.Some? ==> items[0].id.value in Retained(items)
  {
    var rest := Retained(items[1..]);
    if items[0].id.Some? {
      assert Retained(items) == [items[0].id.value] + rest;
      assert Retained(items)[1..] == rest;
      DistinctTail(Retained(items));
    } else {
      assert Retained(items) == [] + rest == rest;
    }
  }

  lemma {:induction false} TailIsDistinct(items: seq<Item>)
    requires items != [] && Distinct(ItemNames(items)) && Distinct(Retained(items))
    ensures Distinct(ItemNames(items[1..])) && Distinct(Retained(items[1..]))
    ensures Upper(items[0].definition.name) !in ItemNames(items[1..])
    ensures forall id | id in Retained(items[1..]) :: id in Retained(items) && Some(id) != items[0].id
    ensures items[0].id.Some? ==> items[0].id.value in Retained(items)
  {
    ItemTail(items);
    assert ItemNames(items)[1..] == ItemNames(items[1..]);
    DistinctTail(ItemNames(items));
    RetainedTail(items);
  }

  lemma {:induction false} WriteStep(rows: Rows, queryId: nat, items: seq<Item>, position: nat, nextRow: nat)
    requires items != [] && Distinct(ItemNames(items)) && Distinct(Retained(items))
    requires forall id | id in Retained(items) :: id in rows && rows[id].queryId == queryId
    requires forall id | id in IdsOf(rows, queryId) :: Upper(rows[id].name) !in ItemNames(items)
    requires forall id | id in rows :: id < nextRow
    ensures var (id, following) := Target(items[0], nextRow);
            var next := rows[id := RowOf(queryId, items[0], position)];
            && (forall k | k in Retained(items[1..]) :: k in next && next[k].queryId == queryId)
            && (forall k | k in IdsOf(next, queryId) :: Upper(next[k].name) !in ItemNames(items[1..]))
            && (forall k | k in next :: k < following)
  {
    var (id, following) := Target(items[0], nextRow);
    var next := rows[id := RowOf(queryId, items[0], position)];
    TailIsDistinct(items);
    ItemTail(items);
    UpperIsIdempotent(items[0].definition.name);
    forall k | k in IdsOf(next, queryId) ensures Upper(next[k].name) !in ItemNames(items[1..]) {
      if k != id {
        assert k in IdsOf(rows, queryId);
      }
    }
  }
}

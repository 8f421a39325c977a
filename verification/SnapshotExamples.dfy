/** An acceptable snapshot that cannot be saved: a stored name looks like a temporary one. */
module SnapshotExamples {
  import opened Wrappers
  import opened Text
  import opened Parameters
  import opened ParameterStore
  import opened SnapshotTheorems
  import Lexer
  import PaginationTheorems
  import RewriteExamples
  import Routes
  import RouteTheorems
  import Validation

  function Optional(name: string): Definition {
    Definition(name, "string", "query", false, None, None)
  }

  const ROUTE := "/a"
  const PLAIN := Query(ROUTE, "GET", RewriteExamples.QUERY, "", "", true)

  lemma {:induction false} NoBraceNoName(s: string)
    requires forall k :: 0 <= k < |s| ==> s[k] != '{'
    ensures RouteNames(s) == []
    decreases |s|
  {
    if s != "" {
      NoBraceNoName(s[1..]);
    }
  }

  lemma {:induction false} NothingDetected(route: string, httpMethod: string)
    requires RouteNames(route) == []
    ensures Detect(route, RewriteExamples.QUERY, httpMethod) == [] == Detect(route, "", httpMethod)
  {
    QueryHasNoBinds();
    NothingFound(route, RewriteExamples.QUERY, httpMethod);
    NothingFound(route, "", httpMethod);
  }

  lemma QueryHasNoBinds()
    ensures BindNames(RewriteExamples.QUERY) == [] && BindNames("") == []
  {
    RewriteExamples.QueryScans();
    RewriteExamples.QueryIsQuiet();
    PaginationTheorems.NoColonNoBind(' ', RewriteExamples.QUERY);
    assert Lexer.Skeleton("") == "";
  }

  lemma {:induction false} NothingFound(route: string, sql: string, httpMethod: string)
    requires RouteNames(route) == [] && BindNames(sql) == []
    ensures Detect(route, sql, httpMethod) == []
  {
  }

  lemma OptionalIsChecked(runtime: Runtime, name: string)
    requires name == "A" || name == "B"
    ensures CheckDefinition(runtime, Optional(name)).None? && Upper(name) == name
  {
    assert TYPES[0] == "string" && SOURCES[1] == "query";
    assert |name| == 1;
  }

  /** The query with two optional parameters may be published. */
  lemma {:induction false} PlainIsAccepted(runtime: Runtime, route: string)
    requires RouteNames(route) == []
    ensures CheckConfiguration(runtime, route, RewriteExamples.QUERY, "GET", [Optional("A"), Optional("B")]).None?
  {
    RewriteExamples.PlainQueryIsAccepted();
    NothingDetected(route, "GET");
    RewriteExamples.KnownMethod();
    PairIsAccepted(runtime, route, RewriteExamples.QUERY);
  }

  lemma PairIsAccepted(runtime: Runtime, route: string, sql: string)
    requires Detect(route, sql, "GET") == [] == Detect(route, "", "GET")
    ensures CheckParameters(runtime, route, sql, "GET", [Optional("A"), Optional("B")]).None?
  {
    var defs := [Optional("A"), Optional("B")];
    OptionalIsChecked(runtime, "A");
    OptionalIsChecked(runtime, "B");
    PairIsChecked(runtime, Optional("A"), Optional("B"));
    assert forall d | d in defs :: d.source == "query";
    OtherSource();
  }

  lemma OtherSource()
    ensures "query" != "path" && "query" != "body"
  {
    assert "query"[0] != "path"[0] && "query"[0] != "body"[0];
  }

  lemma {:induction false} PairIsChecked(runtime: Runtime, a: Definition, b: Definition)
    requires CheckDefinition(runtime, a).None? && CheckDefinition(runtime, b).None?
    requires Upper(a.name) != Upper(b.name)
    ensures CheckDefinitions(runtime, [a, b]).None? && Distinct(CanonicalNames([a, b]))
  {
    var one, two := [b], [a, b];
    assert two[1..] == one && one[1..] == [];
    assert CheckDefinitions(runtime, one[1..]).None?;
    assert CheckDefinitions(runtime, one).None?;
    assert CheckDefinitions(runtime, two).None?;
  }

  lemma RouteHasNoNames()
    ensures RouteNames(Routes.Normalize(ROUTE)) == []
  {
    RouteTheorems.StoredNamesAreKept(ROUTE);
    PaginationTheorems.TightIsStripped(ROUTE);
    NoBraceNoName(ROUTE);
  }

  // ----- the tables

  /** One query with two parameters; the second bears the temporary name of the first. */
  function Confusing(first: nat, second: nat): Tables {
    Tables(map[0 := PLAIN],
           map[first := Row(0, "A", "string", "query", 1, None, false, None, None),
               second := Row(0, Upper(TemporaryName(first)), "string", "query", 2, None, false, None, None)],
           1, first + second + 1)
  }

  lemma ConfusingIsValid(first: nat, second: nat)
    requires first != second
    ensures Valid(Confusing(first, second))
  {
    var name := Upper(TemporaryName(first));
    UpperIsIdempotent(TemporaryName(first));
    TemporaryNamesAreReserved(first);
    assert Upper("A") == "A" && |name| > 1;
  }

  /** The snapshot that keeps both parameters and gives the second a name of its own. */
  function Keeping(first: nat, second: nat): seq<Item> {
    [Item(Some(first), Optional("A"), None), Item(Some(second), Optional("B"), None)]
  }

  lemma KeepingRetains(first: nat, second: nat)
    ensures Retained(Keeping(first, second)) == [first, second]
    ensures Definitions(Keeping(first, second)) == [Optional("A"), Optional("B")]
  {
    var items := Keeping(first, second);
    var rest := [items[1]];
    assert items[1..] == rest && rest[1..] == [];
    assert Retained(rest[1..]) == [];
    assert Retained(rest) == [second] + [];
    assert Retained(items) == [first] + Retained(rest);
  }

  lemma ConfusingIsBlocked(first: nat, second: nat)
    requires first != second
    ensures Owned(Confusing(first, second).rows, 0, Keeping(first, second))
    ensures Blocked(Confusing(first, second).rows, [first, second])
  {
    var rows, ids := Confusing(first, second).rows, [first, second];
    KeepingRetains(first, second);
    UpperIsIdempotent(TemporaryName(first));
    assert ids[0] == first && ids[1] == second;
    assert Upper(rows[ids[1]].name) == Upper(TemporaryName(ids[0]));
  }

  lemma BlockedFails(runtime: Runtime, t: Tables, queryId: Option<nat>, query: Query, items: seq<Item>)
    requires Valid(t) && Blocked(t.rows, Retained(items))
    ensures Save(runtime, t, queryId, query, items).Err?
  {
    SaveOutcome(runtime, t, queryId, query, items);
  }

  /** The query keeps its own path. */
  lemma RouteIsFree(first: nat, second: nat, route: string, httpMethod: string)
    ensures Exists(Confusing(first, second), Some(0))
    ensures !RouteInUse(Confusing(first, second), Some(0), route, httpMethod)
  {
  }

  /** Everything but the renaming is in order. */
  ghost predicate Acceptable(runtime: Runtime, t: Tables, id: nat, query: Query, items: seq<Item>) {
    var route, httpMethod := Routes.Normalize(query.route), Upper(query.httpMethod);
    && CheckConfiguration(runtime, route, query.sql, httpMethod, Definitions(items)).None?
    && Exists(t, Some(id)) && !RouteInUse(t, Some(id), route, httpMethod) && Owned(t.rows, id, items)
  }

  lemma KeepingIsAcceptable(runtime: Runtime, first: nat, second: nat)
    requires first != second
    ensures Acceptable(runtime, Confusing(first, second), 0, PLAIN, Keeping(first, second))
  {
    RouteHasNoNames();
    RewriteExamples.KnownMethod();
    PlainIsAccepted(runtime, Routes.Normalize(ROUTE));
    KeepingRetains(first, second);
    ConfusingIsBlocked(first, second);
    RouteIsFree(first, second, Routes.Normalize(ROUTE), "GET");
  }

  /** Valid tables and a snapshot of the query's own parameters in which everything but the renaming is in
      order: the save fails, because its renaming is blocked. */
  lemma BlockedSave(runtime: Runtime, first: nat, second: nat)
    requires first != second
    ensures var t, items := Confusing(first, second), Keeping(first, second);
            && Valid(t) && Acceptable(runtime, t, 0, PLAIN, items)
            && Blocked(t.rows, Retained(items))
            && Save(runtime, t, Some(0), PLAIN, items).Err?
  {
    var t, items := Confusing(first, second), Keeping(first, second);
    ConfusingIsValid(first, second);
    KeepingIsAcceptable(runtime, first, second);
    KeepingRetains(first, second);
    ConfusingIsBlocked(first, second);
    BlockedFails(runtime, t, Some(0), PLAIN, items);
  }
}

/** Synchronising a route with its SQL only adds, and a second time it does nothing. Reordering
    changes nothing but the order. */
module SyncTheorems {
  import opened Wrappers
  import opened Text
  import opened Parameters
  import opened ParameterStore
  import opened ParameterService
  import opened SnapshotTheorems

  predicate DistinctCandidates(candidates: seq<Detected>) {
    forall i, j :: 0 <= i < j < |candidates| ==> candidates[i].name != candidates[j].name
  }

  predicate CanonicalCandidates(candidates: seq<Detected>) {
    forall d | d in candidates :: Upper(d.name) == d.name
  }

  /** A candidate is in place: some parameter bears its name, and a path candidate's is a required
      path parameter. */
  predicate InPlace(rows: Rows, queryId: nat, d: Detected) {
    exists id | id in rows ::
      && rows[id].queryId == queryId && Upper(rows[id].name) == d.name
      && (d.source == "path" ==> rows[id].source == "path" && rows[id].required)
  }

  /** Old rows keep everything but the two fields that a path candidate may force. */
  predicate OnlyAdds(before: Rows, after: Rows, queryId: nat, nextRow: nat) {
    && (forall id | id in before ::
          && id in after
          && (after[id] == before[id]
              || (before[id].queryId == queryId && after[id] == before[id].(source := "path", required := true))))
    && (forall id | id in after && id !in before :: nextRow <= id && after[id].queryId == queryId)
  }

  /** The state in the middle of a synchronisation. */
  ghost predicate Syncing(known: Rows, queryId: nat, first: nat, s: SyncState) {
    && UniqueNames(s.rows) && first <= s.nextRow
    && (forall id | id in s.rows :: id < s.nextRow)
    && (forall id | id in known :: id < first)
    && OnlyAdds(known, s.rows, queryId, first)
  }

  /** No row added so far bears the name. */
  predicate StillNew(known: Rows, rows: Rows, name: string) {
    forall id | id in rows && id !in known :: Upper(rows[id].name) != name
  }

  /** Inserting a parameter whose name is not in use. */
  lemma InsertWorks(known: Rows, queryId: nat, first: nat, rows: Rows, id: nat, row: Row)
    requires UniqueNames(rows) && OnlyAdds(known, rows, queryId, first)
    requires first <= id && (forall k | k in rows :: k < id) && (forall k | k in known :: k < first)
    requires row.queryId == queryId && Upper(row.name) == row.name
    requires StillNew(known, rows, row.name)
    requires forall k | k in known && known[k].queryId == queryId :: Upper(known[k].name) != row.name
    ensures Put(rows, id, row) == Some(rows[id := row])
    ensures UniqueNames(rows[id := row]) && OnlyAdds(known, rows[id := row], queryId, first)
    ensures OnlyAdds(rows, rows[id := row], queryId, first)
  {
    NameIsFree(known, queryId, first, rows, row);
    assert !Clashes(rows, id, row);
    InsertOnlyAdds(known, queryId, first, rows, id, row);
    InsertOnlyAdds(rows, queryId, first, rows, id, row);
  }

  lemma InsertOnlyAdds(known: Rows, queryId: nat, first: nat, rows: Rows, id: nat, row: Row)
    requires OnlyAdds(known, rows, queryId, first) && first <= id && id !in rows && row.queryId == queryId
    ensures OnlyAdds(known, rows[id := row], queryId, first)
  {
  }

  lemma NameIsFree(known: Rows, queryId: nat, first: nat, rows: Rows, row: Row)
    requires OnlyAdds(known, rows, queryId, first) && StillNew(known, rows, row.name)
    requires forall k | k in known && known[k].queryId == queryId :: Upper(known[k].name) != row.name
    ensures forall k | k in rows && rows[k].queryId == queryId :: Upper(rows[k].name) != row.name
  {
    forall k | k in rows && rows[k].queryId == queryId ensures Upper(rows[k].name) != row.name {
      if k in known {
        assert rows[k].name == known[k].name && known[k].queryId == queryId;
      }
    }
  }

  /** Making a path parameter of one read before the transaction. */
  lemma ForceWorks(known: Rows, queryId: nat, first: nat, rows: Rows, id: nat)
    requires UniqueNames(rows) && OnlyAdds(known, rows, queryId, first)
    requires id in known && known[id].queryId == queryId
    requires forall k | k in rows && k !in known :: first <= k
    ensures id in rows
    ensures var r := rows[id := rows[id].(source := "path", required := true)];
            && UniqueNames(r) && OnlyAdds(known, r, queryId, first) && OnlyAdds(rows, r, queryId, first)
            && r.Keys == rows.Keys
  {
  }

  /** A candidate not seen before goes in without a clash. */
  lemma SyncOneWorks(known: Rows, queryId: nat, first: nat, s: SyncState, d: Detected)
    requires UniqueNames(known) && Syncing(known, queryId, first, s) && Upper(d.name) == d.name
    requires StillNew(known, s.rows, d.name)
    ensures SyncOne(known, queryId, s, d).Some?
    ensures Syncing(known, queryId, first, SyncOne(known, queryId, s, d).value)
    ensures OnlyAdds(s.rows, SyncOne(known, queryId, s, d).value.rows, queryId, first)
  {
    match IdOfName(known, queryId, d.name)
    case None => CreateWorks(known, queryId, first, s, d);
    case Some(id) => AdoptWorks(known, queryId, first, s, d, id);
  }

  lemma CreateWorks(known: Rows, queryId: nat, first: nat, s: SyncState, d: Detected)
    requires UniqueNames(known) && Syncing(known, queryId, first, s) && Upper(d.name) == d.name
    requires StillNew(known, s.rows, d.name) && IdOfName(known, queryId, d.name).None?
    ensures var row := DetectedRow(queryId, d, s.position + 1);
            && SyncOne(known, queryId, s, d)
               == Some(SyncState(s.rows[s.nextRow := row], s.nextRow + 1, s.position + 1, s.created + [d.name], s.updated))
            && Syncing(known, queryId, first, SyncOne(known, queryId, s, d).value)
            && OnlyAdds(s.rows, s.rows[s.nextRow := row], queryId, first)
  {
    InsertWorks(known, queryId, first, s.rows, s.nextRow, DetectedRow(queryId, d, s.position + 1));
  }

  lemma AdoptWorks(known: Rows, queryId: nat, first: nat, s: SyncState, d: Detected, id: nat)
    requires UniqueNames(known) && Syncing(known, queryId, first, s) && IdOfName(known, queryId, d.name) == Some(id)
    ensures SyncOne(known, queryId, s, d).Some?
    ensures Syncing(known, queryId, first, SyncOne(known, queryId, s, d).value)
    ensures OnlyAdds(s.rows, SyncOne(known, queryId, s, d).value.rows, queryId, first)
  {
    ForceWorks(known, queryId, first, s.rows, id);
  }

  lemma SyncOneInPlace(known: Rows, queryId: nat, first: nat, s: SyncState, d: Detected)
    requires UniqueNames(known) && OnlyAdds(known, s.rows, queryId, first) && Upper(d.name) == d.name
    requires SyncOne(known, queryId, s, d).Some?
    ensures InPlace(SyncOne(known, queryId, s, d).value.rows, queryId, d)
    ensures forall id | id in SyncOne(known, queryId, s, d).value.rows && id !in s.rows ::
              SyncOne(known, queryId, s, d).value.rows[id].name == d.name
  {
    var after := SyncOne(known, queryId, s, d).value.rows;
    match IdOfName(known, queryId, d.name)
    case None =>
      assert after == s.rows[s.nextRow := DetectedRow(queryId, d, s.position + 1)];
      assert s.nextRow in after;
    case Some(id) =>
      assert id in after;
  }

  lemma InPlaceStays(before: Rows, after: Rows, queryId: nat, nextRow: nat, d: Detected)
    requires InPlace(before, queryId, d) && OnlyAdds(before, after, queryId, nextRow)
    ensures InPlace(after, queryId, d)
  {
    var id :| id in before && before[id].queryId == queryId && Upper(before[id].name) == d.name
              && (d.source == "path" ==> before[id].source == "path" && before[id].required);
    assert id in after;
  }

  lemma NewNamesStayNew(
    known: Rows, before: Rows, after: Rows, d: Detected, candidates: seq<Detected>)
    requires DistinctCandidates([d] + candidates)
    requires forall c | c in candidates :: StillNew(known, before, c.name)
    requires forall id | id in before :: id in after && after[id].name == before[id].name
    requires forall id | id in after && id !in before :: after[id].name == d.name
    requires Upper(d.name) == d.name
    ensures forall c | c in candidates :: StillNew(known, after, c.name)
  {
    forall c | c in candidates ensures StillNew(known, after, c.name) {
      var k :| 0 <= k < |candidates| && candidates[k] == c;
      assert ([d] + candidates)[0].name != ([d] + candidates)[k + 1].name;
    }
  }

  lemma {:induction false} SyncAllWorks(known: Rows, queryId: nat, first: nat, s: SyncState, candidates: seq<Detected>)
    requires UniqueNames(known) && Syncing(known, queryId, first, s)
    requires DistinctCandidates(candidates) && CanonicalCandidates(candidates)
    requires forall d | d in candidates :: StillNew(known, s.rows, d.name)
    ensures var r := SyncAll(known, queryId, s, candidates);
            && r.Some? && Syncing(known, queryId, first, r.value)
            && OnlyAdds(s.rows, r.value.rows, queryId, first)
            && (forall d | d in candidates :: InPlace(r.value.rows, queryId, d))
    decreases |candidates|
  {
    if candidates != [] {
      var d := candidates[0];
      assert candidates == [d] + candidates[1..];
      SyncOneWorks(known, queryId, first, s, d);
      SyncOneInPlace(known, queryId, first, s, d);
      var next := SyncOne(known, queryId, s, d).value;
      NewNamesStayNew(known, s.rows, next.rows, d, candidates[1..]);
      SyncAllWorks(known, queryId, first, next, candidates[1..]);
      var last := SyncAll(known, queryId, next, candidates[1..]).value;
      InPlaceStays(next.rows, last.rows, queryId, first, d);
      OnlyAddsTwice(s.rows, next.rows, last.rows, queryId, first);
      assert forall c | c in candidates :: c == d || c in candidates[1..];
    }
  }

  lemma OnlyAddsTwice(a: Rows, b: Rows, c: Rows, queryId: nat, first: nat)
    requires OnlyAdds(a, b, queryId, first) && OnlyAdds(b, c, queryId, first)
    ensures OnlyAdds(a, c, queryId, first)
  {
  }

  /** When every candidate is in place there is nothing to do. */
  lemma {:induction false} SyncAllIdle(known: Rows, queryId: nat, s: SyncState, candidates: seq<Detected>)
    requires UniqueNames(known)
    requires forall d | d in candidates :: InPlace(known, queryId, d)
    ensures SyncAll(known, queryId, s, candidates) == Some(s)
    decreases |candidates|
  {
    if candidates != [] {
      assert InPlace(known, queryId, candidates[0]);
      OneId(known, queryId, candidates[0].name);
      SyncAllIdle(known, queryId, s, candidates[1..]);
    }
  }

  /** Detection yields canonical, distinct names. */
  lemma {:induction false} AddNewIsCanonical(
    found: seq<Detected>, names: seq<string>, source: string, skipReserved: bool)
    requires DistinctCandidates(found) && CanonicalCandidates(found)
    ensures var r := AddNew(found, names, source, skipReserved);
            DistinctCandidates(r) && CanonicalCandidates(r)
    decreases |names|
  {
    if names != [] {
      var name := Upper(names[0]);
      UpperIsIdempotent(names[0]);
      var next := if name in NamesOf(found) || (skipReserved && IsReserved(name)) then found
                  else found + [Detected(name, source)];
      assert forall k | 0 <= k < |found| :: NamesOf(found)[k] in NamesOf(found);
      AddNewIsCanonical(next, names[1..], source, skipReserved);
    }
  }

  lemma DetectIsCanonical(route: string, sql: string, httpMethod: string)
    ensures DistinctCandidates(Detect(route, sql, httpMethod)) && CanonicalCandidates(Detect(route, sql, httpMethod))
  {
    AddNewIsCanonical([], RouteNames(route), "path", false);
    AddNewIsCanonical(AddNew([], RouteNames(route), "path", false), BindNames(sql),
                      if Upper(httpMethod) == "GET" then "query" else "body", true);
  }

  /** Synchronising from this state creates and updates nothing. */
  predicate Repeats(known: Rows, queryId: nat, s: SyncState, candidates: seq<Detected>)
    requires UniqueNames(known)
  {
    SyncAll(known, queryId, s, candidates) == Some(s)
  }

  /** Main result. A synchronisation never fails, only adds parameters, and a second one creates and
      updates nothing. */
  lemma {:induction false} SyncIsAdditiveAndIdempotent(t: Tables, queryId: nat, start: nat, again: nat)
    requires Valid(t) && queryId in t.queries
    ensures var q := t.queries[queryId];
            var candidates := Detect(q.route, q.sql, q.httpMethod);
            var once := SyncAll(t.rows, queryId, SyncState(t.rows, t.nextRow, start, [], []), candidates);
            && once.Some? && UniqueNames(once.value.rows)
            && OnlyAdds(t.rows, once.value.rows, queryId, t.nextRow)
            && (forall d | d in candidates :: InPlace(once.value.rows, queryId, d))
            && Repeats(once.value.rows, queryId, SyncState(once.value.rows, once.value.nextRow, again, [], []), candidates)
  {
    var q := t.queries[queryId];
    var candidates := Detect(q.route, q.sql, q.httpMethod);
    var s := SyncState(t.rows, t.nextRow, start, [], []);
    DetectIsCanonical(q.route, q.sql, q.httpMethod);
    SyncAllWorks(t.rows, queryId, t.nextRow, s, candidates);
    var once := SyncAll(t.rows, queryId, s, candidates).value;
    SyncAllIdle(once.rows, queryId, SyncState(once.rows, once.nextRow, again, [], []), candidates);
  }

  // ----- the new parameters

  /** The created parameters take the automatic ids from `first` on and the positions after `start`, in
      the order of their names. */
  predicate InOrder(s: SyncState, queryId: nat, first: nat, start: nat, candidates: seq<Detected>) {
    && s.nextRow == first + |s.created| && s.position == start + |s.created|
    && forall k | 0 <= k < |s.created| :: CreatedAt(s, queryId, first + k, s.created[k], start + k + 1, candidates)
  }

  /** A created parameter is the text parameter of a candidate, required and without anything else. */
  predicate CreatedAt(
    s: SyncState, queryId: nat, id: nat, name: string, position: nat, candidates: seq<Detected>)
  {
    id in s.rows && exists d | d in candidates ::
      d.name == name
      && s.rows[id] == Row(queryId, name, "string", d.source, position, None, true,
                           Some("Detectado automaticamente pelo editor"), None)
  }

  lemma SyncOneInOrder(
    known: Rows, queryId: nat, first: nat, start: nat, s: SyncState, d: Detected, candidates: seq<Detected>)
    requires UniqueNames(known) && InOrder(s, queryId, first, start, candidates) && d in candidates
    requires forall id | id in known :: id < first
    requires SyncOne(known, queryId, s, d).Some?
    ensures var r := SyncOne(known, queryId, s, d).value;
            && InOrder(r, queryId, first, start, candidates)
            && r.created == s.created + (if IdOfName(known, queryId, d.name).None? then [d.name] else [])
  {
    var r := SyncOne(known, queryId, s, d).value;
    match IdOfName(known, queryId, d.name)
    case None =>
      assert r.rows == s.rows[s.nextRow := DetectedRow(queryId, d, s.position + 1)];
      forall k | 0 <= k < |r.created|
        ensures CreatedAt(r, queryId, first + k, r.created[k], start + k + 1, candidates)
      {
        assert k < |s.created| ==> CreatedAt(s, queryId, first + k, s.created[k], start + k + 1, candidates);
      }
    case Some(id) =>
      forall k | 0 <= k < |r.created|
        ensures CreatedAt(r, queryId, first + k, r.created[k], start + k + 1, candidates)
      {
        assert CreatedAt(s, queryId, first + k, s.created[k], start + k + 1, candidates);
      }
      assert s.created + [] == s.created;
  }

  /** The candidates without a parameter, in order. */
  function MissingFrom(known: Rows, queryId: nat, candidates: seq<Detected>): seq<string>
    requires UniqueNames(known)
  {
    if candidates == [] then []
    else (if IdOfName(known, queryId, candidates[0].name).None? then [candidates[0].name] else [])
         + MissingFrom(known, queryId, candidates[1..])
  }

  lemma {:induction false} SyncAllInOrder(
    known: Rows, queryId: nat, first: nat, start: nat, s: SyncState, candidates: seq<Detected>, all: seq<Detected>)
    requires UniqueNames(known) && InOrder(s, queryId, first, start, all)
    requires (forall id | id in known :: id < first) && forall d | d in candidates :: d in all
    requires SyncAll(known, queryId, s, candidates).Some?
    ensures var r := SyncAll(known, queryId, s, candidates).value;
            && InOrder(r, queryId, first, start, all)
            && r.created == s.created + MissingFrom(known, queryId, candidates)
    decreases |candidates|
  {
    if candidates == [] {
      assert s.created + [] == s.created;
    } else {
      SyncOneInOrder(known, queryId, first, start, s, candidates[0], all);
      var next := SyncOne(known, queryId, s, candidates[0]).value;
      SyncAllInOrder(known, queryId, first, start, next, candidates[1..], all);
      var one := if IdOfName(known, queryId, candidates[0].name).None? then [candidates[0].name] else [];
      assert (s.created + one) + MissingFrom(known, queryId, candidates[1..])
             == s.created + (one + MissingFrom(known, queryId, candidates[1..]));
    }
  }

  /** The parameters a synchronisation creates are the missing ones, required, and numbered after the
      last position in the order of detection. */
  lemma {:induction false} SyncNumbersMissing(t: Tables, queryId: nat, start: nat)
    requires Valid(t) && queryId in t.queries
    ensures var q := t.queries[queryId];
            var candidates := Detect(q.route, q.sql, q.httpMethod);
            var r := SyncAll(t.rows, queryId, SyncState(t.rows, t.nextRow, start, [], []), candidates);
            && r.Some? && InOrder(r.value, queryId, t.nextRow, start, candidates)
            && r.value.created == MissingFrom(t.rows, queryId, candidates)
  {
    var q := t.queries[queryId];
    var candidates := Detect(q.route, q.sql, q.httpMethod);
    var s := SyncState(t.rows, t.nextRow, start, [], []);
    SyncIsAdditiveAndIdempotent(t, queryId, start, start);
    SyncAllInOrder(t.rows, queryId, t.nextRow, start, s, candidates, candidates);
    assert [] + MissingFrom(t.rows, queryId, candidates) == MissingFrom(t.rows, queryId, candidates);
  }

  // ----- the parameters that were there

  predicate IsPathOf(d: Detected, row: Row, queryId: nat) {
    d.source == "path" && row.queryId == queryId && Upper(row.name) == d.name
  }

  /** A parameter after the synchronisation: required and of the path if it was found there, and
      otherwise as it was. */
  function Synchronised(row: Row, queryId: nat, candidates: seq<Detected>): Row {
    if exists d | d in candidates :: IsPathOf(d, row, queryId) then row.(source := "path", required := true) else row
  }

  /** A candidate of the path whose parameter is not a required path parameter yet. */
  predicate ToForce(known: Rows, queryId: nat, d: Detected) {
    exists id | id in known :: IsPathOf(d, known[id], queryId) && !(known[id].source == "path" && known[id].required)
  }

  function ForcedFrom(known: Rows, queryId: nat, candidates: seq<Detected>): seq<string> {
    if candidates == [] then []
    else (if ToForce(known, queryId, candidates[0]) then [candidates[0].name] else [])
         + ForcedFrom(known, queryId, candidates[1..])
  }

  /** The rows known before, once the candidates in `done` are through. */
  ghost predicate OldRows(known: Rows, rows: Rows, queryId: nat, done: seq<Detected>) {
    forall id | id in known :: id in rows && rows[id] == Synchronised(known[id], queryId, done)
  }

  lemma SynchronisedMore(row: Row, queryId: nat, done: seq<Detected>, d: Detected)
    ensures Synchronised(row, queryId, done + [d])
            == if IsPathOf(d, row, queryId) then row.(source := "path", required := true)
               else Synchronised(row, queryId, done)
  {
    assert forall e :: e in done + [d] <==> e in done || e == d;
  }

  lemma SyncOneOldRows(known: Rows, queryId: nat, first: nat, s: SyncState, d: Detected, done: seq<Detected>)
    requires UniqueNames(known) && OldRows(known, s.rows, queryId, done)
    requires first <= s.nextRow && forall id | id in known :: id < first
    requires SyncOne(known, queryId, s, d).Some?
    ensures var r := SyncOne(known, queryId, s, d).value;
            && OldRows(known, r.rows, queryId, done + [d]) && first <= r.nextRow
            && r.updated == s.updated + (if ToForce(known, queryId, d) then [d.name] else [])
  {
    var r := SyncOne(known, queryId, s, d).value;
    forall id | id in known ensures id in r.rows && r.rows[id] == Synchronised(known[id], queryId, done + [d]) {
      SynchronisedMore(known[id], queryId, done, d);
      OneId(known, queryId, d.name);
    }
    OneId(known, queryId, d.name);
    assert s.updated + [] == s.updated;
  }

  lemma {:induction false} SyncAllOldRows(
    known: Rows, queryId: nat, first: nat, s: SyncState, candidates: seq<Detected>, done: seq<Detected>)
    requires UniqueNames(known) && OldRows(known, s.rows, queryId, done)
    requires first <= s.nextRow && forall id | id in known :: id < first
    requires SyncAll(known, queryId, s, candidates).Some?
    ensures var r := SyncAll(known, queryId, s, candidates).value;
            && OldRows(known, r.rows, queryId, done + candidates)
            && r.updated == s.updated + ForcedFrom(known, queryId, candidates)
    decreases |candidates|
  {
    if candidates == [] {
      assert done + candidates == done && s.updated + [] == s.updated;
    } else {
      var d := candidates[0];
      var next := SyncOne(known, queryId, s, d).value;
      var one := if ToForce(known, queryId, d) then [d.name] else [];
      SyncOneOldRows(known, queryId, first, s, d, done);
      SyncAllOldRows(known, queryId, first, next, candidates[1..], done + [d]);
      assert done + [d] + candidates[1..] == done + candidates;
      assert s.updated + one + ForcedFrom(known, queryId, candidates[1..])
             == s.updated + (one + ForcedFrom(known, queryId, candidates[1..]));
    }
  }

  /** Exactly the parameters found in the path become required path parameters, every other one stays as
      it was, and those that changed are reported. */
  lemma SyncForcesPaths(t: Tables, queryId: nat, start: nat)
    requires Valid(t) && queryId in t.queries
    ensures var q := t.queries[queryId];
            var candidates := Detect(q.route, q.sql, q.httpMethod);
            var r := SyncAll(t.rows, queryId, SyncState(t.rows, t.nextRow, start, [], []), candidates);
            && r.Some? && OldRows(t.rows, r.value.rows, queryId, candidates)
            && r.value.updated == ForcedFrom(t.rows, queryId, candidates)
  {
    var q := t.queries[queryId];
    var candidates := Detect(q.route, q.sql, q.httpMethod);
    var s := SyncState(t.rows, t.nextRow, start, [], []);
    SyncIsAdditiveAndIdempotent(t, queryId, start, start);
    SyncAllOldRows(t.rows, queryId, t.nextRow, s, candidates, []);
    assert [] + candidates == candidates;
    assert [] + ForcedFrom(t.rows, queryId, candidates) == ForcedFrom(t.rows, queryId, candidates);
  }

  // ----- reordering

  /** A reordering is taken exactly when it lists every parameter of the query, once, and no other. */
  lemma ReorderTakenIff(rows: Rows, queryId: nat, ids: seq<nat>)
    ensures SameIds(rows, queryId, ids)
            <==> && ids != [] && (forall i, j :: 0 <= i < j < |ids| ==> ids[i] != ids[j])
                 && forall id :: id in ids <==> id in rows && rows[id].queryId == queryId
  {
    var listed := set id | id in ids;
    if forall id :: id in ids <==> id in rows && rows[id].queryId == queryId {
      assert IdsOf(rows, queryId) == listed;
    }
    if IdsOf(rows, queryId) == listed {
      forall id ensures id in ids <==> id in rows && rows[id].queryId == queryId {
        assert id in listed <==> id in IdsOf(rows, queryId);
      }
    }
  }

  lemma {:induction false} RenumberOutcome(rows: Rows, ids: seq<nat>, position: nat)
    requires Distinct(ids) && forall k :: 0 <= k < |ids| ==> ids[k] in rows
    ensures var r := Renumber(rows, ids, position);
            && r.Keys == rows.Keys
            && (forall id | id in rows && id !in ids :: r[id] == rows[id])
            && (forall k :: 0 <= k < |ids| ==> r[ids[k]] == rows[ids[k]].(position := position + k))
    decreases |ids|
  {
    if ids != [] {
      var next := rows[ids[0] := rows[ids[0]].(position := position)];
      DistinctTail(ids);
      RenumberOutcome(next, ids[1..], position + 1);
      var r := Renumber(rows, ids, position);
      forall k | 0 <= k < |ids| ensures r[ids[k]] == rows[ids[k]].(position := position + k) {
        if k > 0 {
          assert ids[1..][k - 1] == ids[k];
        }
      }
    }
  }

  /** After a reordering the parameters read back in the order asked for, otherwise unchanged. */
  lemma {:induction false} ReorderReadsBack(rows: Rows, queryId: nat, ids: seq<nat>, read: seq<nat>)
    requires SameIds(rows, queryId, ids)
    requires ReadsAs(Renumber(rows, ids, 1), queryId, read)
    ensures read == ids
    ensures forall id | id in rows ::
              id in Renumber(rows, ids, 1)
              && Renumber(rows, ids, 1)[id].(position := 0) == rows[id].(position := 0)
  {
    forall k | 0 <= k < |ids| ensures ids[k] in IdsOf(rows, queryId) {
      assert ids[k] in set id | id in ids;
    }
    RenumberOutcome(rows, ids, 1);
    var r := Renumber(rows, ids, 1);
    forall id | id in rows ensures r[id].(position := 0) == rows[id].(position := 0) {
      if id in ids {
        var k :| 0 <= k < |ids| && ids[k] == id;
      }
    }
    assert forall id | id in IdsOf(r, queryId) :: id in IdsOf(rows, queryId);
    ReadingIsUnique(r, queryId, read, ids, 0);
  }
}

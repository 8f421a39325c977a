/** The table of executions: a status update that spares finished executions, and the trimming that
    follows every final status. */
module History {
  import opened Wrappers

  type Id = nat

  datatype Status = Queued | Running | CancelRequested | Completed | Failed | Canceled | TimedOut {
    predicate Terminal() {
      Completed? || Failed? || Canceled? || TimedOut?
    }
  }

  datatype Record = Record(owner: nat, status: Status, created: nat, started: Option<nat>, finished: Option<nat>)

  type Table = map<Id, Record>

  datatype Write = Write(status: Status, starts: bool, finishes: bool)

  function Updated(r: Record, w: Write, now: nat): Record {
    if r.status.Terminal() then r
    else r.(status := w.status,
            started := if w.starts && r.started.None? then Some(now) else r.started,
            finished := if w.finishes then Some(now) else r.finished)
  }

  function Update(t: Table, id: Id, w: Write, now: nat): Table {
    if id in t then t[id := Updated(t[id], w, now)] else t
  }

  function Terminals(t: Table): set<Id> {
    set id | id in t && t[id].status.Terminal()
  }

  /** The finished executions, the newest first; those created at the same time in any order. */
  ghost predicate NewestFirst(t: Table, order: seq<Id>) {
    && (forall i :: 0 <= i < |order| ==> order[i] in Terminals(t))
    && (forall id | id in Terminals(t) :: id in order)
    && (forall i, j :: 0 <= i < j < |order| ==> order[i] != order[j])
    && (forall i, j :: 0 <= i < j < |order| ==> t[order[i]].created >= t[order[j]].created)
  }

  function Elements(ids: seq<Id>): set<Id> {
    set id | id in ids
  }

  /** Those past the first `size`. */
  function Excess(order: seq<Id>, size: nat): set<Id> {
    if |order| <= size then {} else Elements(order[size..])
  }

  /** One call of the status routine. */
  function Apply(t: Table, id: Id, w: Write, now: nat, size: nat, order: seq<Id>): Table {
    var updated := Update(t, id, w, now);
    if w.status.Terminal() then updated - Excess(order, size) else updated
  }

  ghost predicate CanApply(t: Table, id: Id, w: Write, now: nat, order: seq<Id>) {
    w.status.Terminal() ==> NewestFirst(Update(t, id, w, now), order)
  }

  lemma FewerElements(a: set<Id>, b: set<Id>)
    requires a <= b
    ensures |a| <= |b|
  {
    assert b == a + (b - a);
  }

  lemma {:induction false} DistinctCount(s: seq<Id>)
    requires forall i, j :: 0 <= i < j < |s| ==> s[i] != s[j]
    ensures |Elements(s)| == |s|
    decreases |s|
  {
    if s == [] {
      assert Elements(s) == {};
    } else {
      DistinctCount(s[1..]);
      assert Elements(s) == {s[0]} + Elements(s[1..]);
      assert s[0] !in Elements(s[1..]);
    }
  }

  lemma SplitOrder(order: seq<Id>, size: nat)
    requires forall i, j :: 0 <= i < j < |order| ==> order[i] != order[j]
    requires size <= |order|
    ensures Elements(order) - Elements(order[size..]) == Elements(order[..size])
    ensures |Elements(order[..size])| == size
  {
    assert order == order[..size] + order[size..];
    assert forall id | id in order[..size] :: id in order && id !in order[size..];
    DistinctCount(order[..size]);
  }

  lemma KeptIsNewer(t: Table, size: nat, order: seq<Id>, kept: Id, out: Id)
    requires NewestFirst(t, order) && kept in Terminals(t) - Excess(order, size) && out in Excess(order, size)
    ensures out in t && t[kept].created >= t[out].created
  {
    var i :| 0 <= i < |order| && order[i] == kept;
    var j :| 0 <= j < |order| - size && order[size..][j] == out;
    assert order[size + j] == out;
    assert forall k | size <= k < |order| :: order[size..][k - size] == order[k];
  }

  lemma TrimCount(t: Table, size: nat, order: seq<Id>)
    requires NewestFirst(t, order)
    ensures Excess(order, size) <= Terminals(t)
    ensures |Terminals(t) - Excess(order, size)| == (if |Terminals(t)| <= size then |Terminals(t)| else size)
  {
    assert Terminals(t) == Elements(order);
    DistinctCount(order);
    if size < |order| {
      SplitOrder(order, size);
      assert forall id | id in order[size..] :: id in order;
    } else {
      assert Terminals(t) - {} == Terminals(t);
    }
  }

  /** Trimming keeps the newest: what goes is finished and no newer than any finished execution that
      stays, and exactly what exceeds the limit goes. */
  lemma TrimKeepsNewest(t: Table, size: nat, order: seq<Id>)
    requires NewestFirst(t, order)
    ensures var gone := Excess(order, size);
            && gone <= Terminals(t)
            && Terminals(t - gone) == Terminals(t) - gone
            && |Terminals(t) - gone| == (if |Terminals(t)| <= size then |Terminals(t)| else size)
            && (forall kept, out | kept in Terminals(t) - gone && out in gone :: t[kept].created >= t[out].created)
  {
    var gone := Excess(order, size);
    TrimCount(t, size, order);
    forall kept, out | kept in Terminals(t) - gone && out in gone ensures t[kept].created >= t[out].created {
      KeptIsNewer(t, size, order, kept, out);
    }
  }

  /** There always is an order to trim by. */
  lemma {:induction false} OrderExists(t: Table) returns (order: seq<Id>)
    ensures NewestFirst(t, order)
    decreases |t|
  {
    if Terminals(t) == {} {
      order := [];
    } else {
      var oldest := Oldest(t, Terminals(t));
      var rest := t - {oldest};
      assert rest.Keys == t.Keys - {oldest};
      assert |rest| == |rest.Keys| && |t| == |t.Keys|;
      assert Terminals(rest) == Terminals(t) - {oldest};
      var shorter := OrderExists(rest);
      order := shorter + [oldest];
      forall id ensures id in order <==> id in Terminals(t) {
        assert id in order <==> id in shorter || id == oldest;
      }
      forall i, j | 0 <= i < j < |order|
        ensures order[i] != order[j] && t[order[i]].created >= t[order[j]].created
      {
        assert order[i] in shorter;
      }
    }
  }

  lemma {:induction false} Oldest(t: Table, ids: set<Id>) returns (oldest: Id)
    requires ids != {} && forall id | id in ids :: id in t
    ensures oldest in ids && forall id | id in ids :: t[oldest].created <= t[id].created
    decreases ids
  {
    oldest :| oldest in ids;
    if ids != {oldest} {
      var other := Oldest(t, ids - {oldest});
      assert forall id | id in ids :: id == oldest || id in ids - {oldest};
      if t[other].created < t[oldest].created {
        oldest := other;
      }
    }
  }

  /** A call writes one row at most: a finished record is never altered, a start time never replaced,
      and only finished records go. */
  lemma ApplyIsMonotone(t: Table, id: Id, w: Write, now: nat, size: nat, order: seq<Id>)
    requires CanApply(t, id, w, now, order)
    ensures var after := Apply(t, id, w, now, size, order);
            && after.Keys <= t.Keys
            && (forall k | k in after && k != id :: after[k] == t[k])
            && (id in after ==> after[id] == Updated(t[id], w, now))
            && (forall k | k in t && k !in after :: Update(t, id, w, now)[k].status.Terminal())
            && (|Terminals(t)| <= size ==> |Terminals(after)| <= size)
  {
    var updated := Update(t, id, w, now);
    if w.status.Terminal() {
      TrimKeepsNewest(updated, size, order);
    } else {
      assert Terminals(updated) == Terminals(t);
    }
  }
}

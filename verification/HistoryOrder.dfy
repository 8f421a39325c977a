/** A trim reads the table of executions by the texts of their creation times. */
module HistoryOrder {
  import opened History
  import opened IsoTime

  /** When the executions of a table were created. */
  ghost predicate Stamped(t: Table, stamps: map<Id, Time>) {
    forall id | id in t :: id in stamps && Instant(stamps[id]) == t[id].created
  }

  /** The finished executions in descending order of the stored texts. */
  ghost predicate LatestTextFirst(t: Table, stamps: map<Id, Time>, order: seq<Id>)
    requires Stamped(t, stamps)
  {
    && (forall i :: 0 <= i < |order| ==> order[i] in Terminals(t))
    && (forall id | id in Terminals(t) :: id in order)
    && (forall i, j :: 0 <= i < j < |order| ==> order[i] != order[j])
    && (forall i, j :: 0 <= i < j < |order| ==> TextLe(Iso(stamps[order[j]]), Iso(stamps[order[i]])))
  }

  /** Ordering the table by the texts is ordering it by the instants. */
  lemma {:induction false} TextsOrderTheTable(t: Table, stamps: map<Id, Time>, order: seq<Id>)
    requires Stamped(t, stamps)
    ensures LatestTextFirst(t, stamps, order) <==> NewestFirst(t, order)
  {
    if forall i :: 0 <= i < |order| ==> order[i] in Terminals(t) {
      forall i, j | 0 <= i < j < |order|
        ensures TextLe(Iso(stamps[order[j]]), Iso(stamps[order[i]]))
                <==> t[order[i]].created >= t[order[j]].created
      {
        assert order[i] in t && order[j] in t;
        TextOrderIsTimeOrder(stamps[order[j]], stamps[order[i]]);
      }
    }
  }

  /** A trim by the texts removes nothing that was created later than what it keeps, and exactly what
      exceeds the limit. */
  lemma {:induction false} TrimByTextKeepsNewest(t: Table, stamps: map<Id, Time>, size: nat, order: seq<Id>)
    requires Stamped(t, stamps) && LatestTextFirst(t, stamps, order)
    ensures var gone := Excess(order, size);
            && gone <= Terminals(t)
            && |Terminals(t) - gone| == (if |Terminals(t)| <= size then |Terminals(t)| else size)
            && forall kept, out | kept in Terminals(t) - gone && out in gone ::
                 Instant(stamps[kept]) >= Instant(stamps[out])
  {
    TextsOrderTheTable(t, stamps, order);
    TrimKeepsNewest(t, size, order);
  }
}

/** Which orderings are accepted, and which queries count as ordered or paginated already. */
module OrderingTheorems {
  import opened Wrappers
  import opened Text
  import opened Lexer
  import opened Nesting
  import opened Parameters
  import opened Pagination
  import opened PaginationTheorems

  // ----- items

  predicate IsColumn(s: string) {
    s != "" && IsNameStart(s[0]) && forall c | c in s :: IsColumnChar(c)
  }

  /** Nothing, or a dot and a column. */
  predicate IsQualifier(s: string) {
    s == "" || (s[0] == '.' && IsColumn(s[1..]))
  }

  /** Nothing, or whitespace and ASC or DESC in any letter case. */
  ghost predicate IsSort(s: string) {
    s == "" || exists gap: string, word: string ::
      gap != "" && AllSpace(gap) && s == gap + word && Upper(word) in {"ASC", "DESC"}
  }

  /** A column, perhaps qualified, with a direction or none. */
  ghost predicate IsItem(s: string) {
    exists column: string, qualifier: string, sort: string ::
      s == column + qualifier + sort && IsColumn(column) && IsQualifier(qualifier) && IsSort(sort)
  }

  lemma SortIsDirection(s: string)
    ensures IsDirection(s) <==> IsSort(s)
  {
    if s != "" && IsDirection(s) {
      var k := Indent(s);
      assert s == s[..k] + s[k..];
    }
    if gap: string, word: string :| gap != "" && AllSpace(gap) && s == gap + word && Upper(word) in {"ASC", "DESC"} {
      assert word != "" && Upper(word)[0] == UpperChar(word[0]) && !IsSpace(word[0]);
      LStripSkips(gap, word);
      assert IsSpace(gap[0]) && s[0] == gap[0];
    }
  }

  lemma {:induction false} ColumnRunStops(a: string, b: string)
    requires (forall c | c in a :: IsColumnChar(c)) && (b == "" || !IsColumnChar(b[0]))
    ensures ColumnRun(a + b) == |a|
  {
    if a == "" {
      assert a + b == b;
    } else {
      assert a[0] in a && (a + b)[1..] == a[1..] + b;
      ColumnRunStops(a[1..], b);
    }
  }

  lemma ColumnStops(a: string, b: string)
    requires IsColumn(a) && (b == "" || !IsColumnChar(b[0]))
    ensures ColumnLength(a + b) == |a| && (a + b)[|a|..] == b
  {
    assert (a + b)[1..] == a[1..] + b;
    ColumnRunStops(a[1..], b);
  }

  lemma {:induction false} RunEnds(s: string)
    ensures var k := ColumnRun(s); k < |s| ==> !IsColumnChar(s[k])
  {
    if s != "" && IsColumnChar(s[0]) {
      RunEnds(s[1..]);
    }
  }

  lemma LengthIsColumn(s: string)
    requires ColumnLength(s) > 0
    ensures IsColumn(s[..ColumnLength(s)])
  {
  }

  lemma SortStops(sort: string)
    requires IsSort(sort)
    ensures sort == "" || (!IsColumnChar(sort[0]) && sort[0] != '.')
  {
    if gap: string, word: string :| gap != "" && AllSpace(gap) && sort == gap + word {
      assert IsSpace(gap[0]) && sort[0] == gap[0];
    }
  }

  lemma ItemIsRead(s: string, column: string, qualifier: string, sort: string)
    requires s == column + qualifier + sort && IsColumn(column) && IsQualifier(qualifier) && IsSort(sort)
    ensures IsOrderItem(s)
  {
    SortStops(sort);
    SortIsDirection(sort);
    var after := qualifier + sort;
    Associate(column, qualifier, sort);
    assert qualifier == "" ==> after == sort;
    assert qualifier != "" ==> after[0] == '.';
    ColumnStops(column, after);
    if qualifier != "" {
      QualifiedIsRead(s, column, qualifier, sort);
      ItemAt(s, |column|, sort);
    } else {
      BareItem(s, |column|, sort);
    }
  }

  lemma ItemAt(s: string, k: nat, sort: string)
    requires ColumnLength(s) == k && 0 < k < |s| && s[k] == '.' && ColumnLength(s[k + 1..]) > 0
    requires s[k + 1..][ColumnLength(s[k + 1..])..] == sort && IsDirection(sort)
    ensures IsOrderItem(s)
  {
  }

  lemma BareItem(s: string, k: nat, sort: string)
    requires ColumnLength(s) == k && 0 < k <= |s| && s[k..] == sort && IsDirection(sort)
    requires sort == "" || sort[0] != '.'
    ensures IsOrderItem(s)
  {
  }

  lemma QualifiedIsRead(s: string, column: string, qualifier: string, sort: string)
    requires s == column + qualifier + sort && qualifier != "" && IsQualifier(qualifier)
    requires sort == "" || !IsColumnChar(sort[0])
    ensures var k := |column|;
            && k < |s| && s[k] == '.' && ColumnLength(s[k + 1..]) > 0
            && s[k + 1..][ColumnLength(s[k + 1..])..] == sort
  {
    var name := qualifier[1..];
    assert s[|column| + 1..] == name + sort;
    ColumnStops(name, sort);
  }

  lemma ReadIsItem(s: string)
    requires IsOrderItem(s)
    ensures IsItem(s)
  {
    var k := ColumnLength(s);
    LengthIsColumn(s);
    if k < |s| && s[k] == '.' {
      ReadQualified(s, k);
    } else {
      SortIsDirection(s[k..]);
      assert s == s[..k] + "" + s[k..];
    }
  }

  lemma ReadQualified(s: string, k: nat)
    requires 0 < k < |s| && s[k] == '.' && IsColumn(s[..k])
    requires ColumnLength(s[k + 1..]) > 0 && IsDirection(s[k + 1..][ColumnLength(s[k + 1..])..])
    ensures IsItem(s)
  {
    var rest := s[k + 1..];
    var j := ColumnLength(rest);
    LengthIsColumn(rest);
    SortIsDirection(rest[j..]);
    var qualifier := "." + rest[..j];
    assert qualifier[1..] == rest[..j];
    CutInThree(s, k, j);
  }

  lemma CutInThree(s: string, k: nat, j: nat)
    requires k < |s| && s[k] == '.' && j <= |s| - k - 1
    ensures s == s[..k] + ("." + s[k + 1..][..j]) + s[k + 1..][j..]
  {
    assert s[k + 1..] == s[k + 1..][..j] + s[k + 1..][j..];
    assert s == s[..k] + ("." + s[k + 1..]);
  }

  /** The items accepted are exactly these. */
  lemma ItemsAccepted(s: string)
    ensures IsOrderItem(s) <==> IsItem(s)
  {
    if IsOrderItem(s) {
      ReadIsItem(s);
    }
    if column: string, qualifier: string, sort: string :|
       s == column + qualifier + sort && IsColumn(column) && IsQualifier(qualifier) && IsSort(sort)
    {
      ItemIsRead(s, column, qualifier, sort);
    }
  }

  // ----- orderings

  /** ORDER and BY stand side by side. */
  ghost predicate HoldsOrderBy(words: seq<string>) {
    exists before: seq<string>, after: seq<string> :: words == before + ["ORDER", "BY"] + after
  }

  lemma OrderByIsHeld(words: seq<string>)
    ensures HasOrderBy(words) <==> HoldsOrderBy(words)
  {
    if k :| 0 <= k < |words| - 1 && words[k] == "ORDER" && words[k + 1] == "BY" {
      assert words == words[..k] + ["ORDER", "BY"] + words[k + 2..];
    }
    if before: seq<string>, after: seq<string> :| words == before + ["ORDER", "BY"] + after {
      assert words[|before|] == "ORDER" && words[|before| + 1] == "BY";
    }
  }

  /** The parts of the request between commas. */
  ghost predicate AllItems(parts: seq<string>) {
    forall part | part in parts :: IsItem(Strip(part))
  }

  /** Main result. An ordering is accepted exactly when none is asked for, or every part between commas
      is an item and the query holds no ORDER BY outside parentheses; a bad item is reported first. */
  lemma OrderedIff(runtime: Runtime, sql: string, orderBy: Option<Value>)
    ensures var r := Ordered(runtime, sql, orderBy);
            if !Truthy(runtime, orderBy) then r == Ok(sql)
            else
              var parts := SplitAt(runtime.text(orderBy.value), ',');
              if !AllItems(parts) then r == Err(BadOrderBy)
              else if HoldsOrderBy(TopWords(0, "", Skeleton(sql))) then r == Err(AlreadyOrdered)
              else r.Ok?
  {
    if Truthy(runtime, orderBy) {
      var parts := SplitAt(runtime.text(orderBy.value), ',');
      StrippedItems(parts);
      OrderByIsHeld(TopWords(0, "", Skeleton(sql)));
    }
  }

  lemma StrippedItems(parts: seq<string>)
    ensures AllItems(parts) <==> forall item | item in StripAll(parts) :: IsOrderItem(item)
  {
    var items := StripAll(parts);
    forall k | 0 <= k < |parts| ensures IsOrderItem(items[k]) <==> IsItem(Strip(parts[k])) {
      ItemsAccepted(Strip(parts[k]));
    }
    if forall item | item in items :: IsOrderItem(item) {
      forall part | part in parts ensures IsItem(Strip(part)) {
        var k :| 0 <= k < |parts| && parts[k] == part;
        assert items[k] in items;
      }
    }
    if AllItems(parts) {
      forall item | item in items ensures IsOrderItem(item) {
        var k :| 0 <= k < |items| && items[k] == item;
        assert parts[k] in parts;
      }
    }
  }

  /** A query counts as paginated exactly when one of five words stands outside its parentheses. */
  lemma WindowWords(sql: string)
    ensures HasWindow(sql) <==> exists w | w in TopWords(0, "", Skeleton(sql)) ::
              w in {"ROWS", "FIRST", "SKIP", "OFFSET", "FETCH"}
  {
    assert WINDOW_WORDS[0] == "ROWS" && WINDOW_WORDS[1] == "FIRST" && WINDOW_WORDS[2] == "SKIP";
    assert WINDOW_WORDS[3] == "OFFSET" && WINDOW_WORDS[4] == "FETCH";
  }
}

/** When the ordering and the row clause become part of an accepted statement, and when they do not. */
module RewriteTheorems {
  import opened Wrappers
  import opened Text
  import opened Lexer
  import opened LexerTheorems
  import opened Scanners
  import opened Splitting
  import opened Nesting
  import opened Parameters
  import opened Pagination
  import opened PaginationTheorems
  import opened Validation
  import opened ValidationTheorems
  import opened PolicyTheorems

  // ----- trimming keeps the number of statements

  lemma {:induction false} SpaceHasNoSemicolon(m: Mode, s: string)
    requires AllSpace(s)
    ensures Code(';') !in Lex(false, m, s)
    decreases |s|
  {
    if s != "" {
      assert IsSpace(s[0]);
      var t, rest := LexFirst(false, m, s);
      SpaceHasNoSemicolon(t.mode, rest);
    }
  }

  lemma SpaceKeepsBlank(lead: string, s: string, trail: string)
    requires AllSpace(lead) && AllSpace(trail)
    ensures Blank(lead + s + trail) <==> Blank(s)
  {
    var a, b := Margins(s);
    Regroup(lead, a, Strip(s), b, trail);
    StripFindsCore(lead + a, Strip(s), b + trail);
  }

  lemma Regroup(lead: string, a: string, core: string, b: string, trail: string)
    ensures lead + (a + core + b) + trail == (lead + a) + core + (b + trail)
  {
  }

  lemma {:induction false} TrailKeepsCount(a: seq<Item>, b: seq<Item>)
    requires Code(';') !in b && AllSpace(Source(b))
    ensures |NonBlank(Texts(Segments(a + b)))| == |NonBlank(Texts(Segments(a)))|
  {
    SegmentsAppend(a, b);
    CountByLast(a);
    CountByLast(a + b);
    var last := Segments(a)[|Segments(a)| - 1];
    SourceAppend(last, b);
    SpaceKeepsBlank("", Source(last), Source(b));
    assert "" + Source(last) == Source(last);
  }

  lemma {:induction false} LeadKeepsCount(a: seq<Item>, b: seq<Item>)
    requires Code(';') !in a && AllSpace(Source(a))
    ensures |NonBlank(Texts(Segments(a + b)))| == |NonBlank(Texts(Segments(b)))|
  {
    var g := Segments(b);
    PrependSegment(a, b);
    FirstText(a + g[0], g[1..]);
    FirstText(g[0], g[1..]);
    assert g == [g[0]] + g[1..];
    SourceAppend(a, g[0]);
    SpaceKeepsBlank(Source(a), Source(g[0]), "");
    assert Source(a) + Source(g[0]) + "" == Source(a) + Source(g[0]);
    NonBlankFirst(Source(a + g[0]), Texts(g[1..]));
    NonBlankFirst(Source(g[0]), Texts(g[1..]));
  }

  lemma {:induction false} NonBlankFirst(first: string, rest: seq<string>)
    ensures |NonBlank([first] + rest)| == |NonBlank(rest)| + if Blank(first) then 0 else 1
  {
    assert ([first] + rest)[1..] == rest;
  }

  lemma StripKeepsCount(s: string)
    ensures |Statements(Strip(s))| == |Statements(s)|
  {
    var lead, trail := Margins(s);
    var core := Strip(s);
    var m := EndMode(false, Normal, core);
    LexMargins(false, lead, core, trail);
    SpaceHasNoSemicolon(Normal, lead);
    SpaceHasNoSemicolon(m, trail);
    LexIsFaithful(false, Normal, lead);
    LexIsFaithful(false, m, trail);
    var a, b, c := Lex(false, Normal, lead), Lex(false, Normal, core), Lex(false, m, trail);
    TrailKeepsCount(a + b, c);
    LeadKeepsCount(a, b);
  }

  /** Trailing whitespace adds whitespace to the skeleton. */
  lemma RStripKeepsSkeleton(sql: string) returns (space: string)
    ensures Skeleton(sql) == Skeleton(RStrip(sql)) + space && AllSpace(space)
    ensures RStrip(Skeleton(sql)) == RStrip(Skeleton(RStrip(sql)))
  {
    var base, trail := RStrip(sql), sql[TextEnd(sql)..];
    assert sql == base + trail;
    assert trail != "" ==> IsSpace(trail[0]);
    SkeletonAppend(base, trail);
    space := SkeletonFrom(EndMode(true, Normal, base), trail);
    SpaceLeavesSpace(EndMode(true, Normal, base), trail);
    RStripSkips(Skeleton(base), space);
  }

  lemma StripSkipsTrail(s: string, trail: string)
    requires AllSpace(trail)
    ensures Strip(s + trail) == Strip(s)
  {
    var a, b := Margins(s);
    assert s + trail == a + Strip(s) + (b + trail);
    StripFindsCore(a, Strip(s), b + trail);
  }

  /** The trimmed text of an accepted query is one statement. */
  lemma AcceptedIsOneStatement(sql: string, httpMethod: string)
    requires Validate(sql, httpMethod).Valid?
    ensures |Statements(Skeleton(RStrip(sql)))| == 1
  {
    AcceptedIff(sql, httpMethod);
    var space := RStripKeepsSkeleton(sql);
    StripSkipsTrail(Skeleton(RStrip(sql)), space);
    StripKeepsCount(Skeleton(RStrip(sql)));
  }

  // ----- the result of the options

  /** What the ordering adds to a query. */
  function OrderClause(runtime: Runtime, orderBy: Option<Value>): string {
    if Truthy(runtime, orderBy) then OrderSuffix(StripAll(SplitAt(runtime.text(orderBy.value), ','))) else ""
  }

  lemma OrderClauseIsPlain(runtime: Runtime, sql: string, orderBy: Option<Value>)
    requires Ordered(runtime, sql, orderBy).Ok?
    ensures var c := OrderClause(runtime, orderBy);
            && RStrip(Ordered(runtime, sql, orderBy).value) == RStrip(sql) + c
            && IsQuiet(c) && (c != "" ==> |c| > 1 && c[0] == ' ' && c[1] == 'O')
  {
    var base := RStrip(sql);
    if Truthy(runtime, orderBy) {
      var items := StripAll(SplitAt(runtime.text(orderBy.value), ','));
      AcceptedItems(runtime, sql, orderBy, items);
      OrderSuffixStarts(items);
      RStripKeeps(base, OrderSuffix(items));
    } else {
      assert base + "" == base;
    }
  }

  lemma AcceptedItems(runtime: Runtime, sql: string, orderBy: Option<Value>, items: seq<string>)
    requires Ordered(runtime, sql, orderBy).Ok? && Truthy(runtime, orderBy)
    requires items == StripAll(SplitAt(runtime.text(orderBy.value), ','))
    ensures items != [] && forall item | item in items :: IsOrderItem(item) && Tight(item)
    ensures Ordered(runtime, sql, orderBy).value == RStrip(sql) + OrderSuffix(items)
  {
  }

  lemma OrderSuffixStarts(items: seq<string>)
    requires items != [] && forall item | item in items :: IsOrderItem(item) && Tight(item)
    ensures var c := OrderSuffix(items);
            |c| > 1 && c[0] == ' ' && c[1] == 'O' && IsQuiet(c) && !IsSpace(c[|c| - 1])
  {
    OrderSuffixIsQuiet(items);
    assert OrderSuffix(items)[1] == 'O';
  }

  lemma RowSuffixStarts(offset: int)
    ensures var rows := RowSuffix(offset); |rows| > 1 && rows[0] == ' ' && rows[1] == 'R'
  {
    assert RowSuffix(offset)[1] == 'R';
  }

  /** The options add the ordering and the row clause to the trimmed text. */
  lemma OptionsAppend(
    runtime: Runtime, sql: string, params: map<string, Value>, options: Options, maxRows: int)
    requires ApplyOptions(runtime, sql, params, options, maxRows).Ok?
    requires !HasWindow(Ordered(runtime, sql, options.orderBy).value)
    ensures var (limit, offset) := RowWindow(runtime, options, maxRows).value;
            && var c := OrderClause(runtime, options.orderBy) + RowSuffix(offset);
            && ApplyOptions(runtime, sql, params, options, maxRows).value.0 == RStrip(sql) + c
            && |c| > 1 && c[0] == ' ' && !IsSpace(c[1]) && IsPlain(c)
  {
    var (limit, offset) := RowWindow(runtime, options, maxRows).value;
    var order, rows := OrderClause(runtime, options.orderBy), RowSuffix(offset);
    OrderClauseIsPlain(runtime, sql, options.orderBy);
    SuffixIsPlain(offset);
    PlainAppend(order, rows);
    Associate(RStrip(sql), order, rows);
    RowSuffixStarts(offset);
    assert order == "" ==> order + rows == rows;
  }

  /** Main result for an accepted query, with or without an ordering. Its text is followed by what the
      options ask for; that is code, as it must be, if and only if the text ends as code; and it then
      belongs to the statement if and only if no semicolon ends the text. */
  lemma OptionsReachStatement(
    runtime: Runtime, sql: string, params: map<string, Value>, options: Options, maxRows: int
  ) returns (clauses: string)
    requires Validate(sql, "GET").Valid?
    requires ApplyOptions(runtime, sql, params, options, maxRows).Ok?
    requires !HasWindow(Ordered(runtime, sql, options.orderBy).value)
    ensures clauses == OrderClause(runtime, options.orderBy) + RowSuffix(RowWindow(runtime, options, maxRows).value.1)
    ensures var text := ApplyOptions(runtime, sql, params, options, maxRows).value.0;
            var ends := EndMode(true, Normal, RStrip(sql)) == Normal;
            && text == RStrip(sql) + clauses
            && (Skeleton(text) == Skeleton(RStrip(sql)) + clauses <==> ends)
            && (ends ==> (|Statements(Skeleton(text))| == 1 <==> !IsClosed(Skeleton(RStrip(sql)))))
  {
    var base := RStrip(sql);
    clauses := OrderClause(runtime, options.orderBy) + RowSuffix(RowWindow(runtime, options, maxRows).value.1);
    OptionsAppend(runtime, sql, params, options, maxRows);
    SuffixReachesStatement(base, clauses);
    AcceptedIsOneStatement(sql, "GET");
    if EndMode(true, Normal, base) == Normal {
      SuffixStaysInStatement(base, clauses);
    }
  }

  /** Text that cannot close a literal or a comment vanishes in an open one. */
  lemma {:induction false} SwallowedWhole(m: Mode, s: string)
    requires m != Normal && forall k :: 0 <= k < |s| ==> s[k] != QUOTE && s[k] != '\n' && s[k] != '*'
    ensures SkeletonFrom(m, s) == ""
    decreases |s|
  {
    if s != "" {
      var t := Read(true, m, s);
      SkeletonUnfold(m, s);
      assert s[0] != '*' && "*/"[0] == '*';
      assert t.mode == m && t.width == 1 && s[t.width..] == s[1..];
      SwallowedWhole(t.mode, s[t.width..]);
    }
  }

  lemma RowSuffixCloses(m: Mode, offset: int)
    requires m != Normal
    ensures SkeletonFrom(m, RowSuffix(offset)) == ""
  {
    SwallowedWhole(m, RowSuffix(offset));
  }

  /** The row clause is part of the text it follows, or nothing is left of it. */
  lemma {:induction false} RowsReachOrVanish(base: string, offset: int)
    ensures Skeleton(base + RowSuffix(offset))
            == Skeleton(base) + if EndMode(true, Normal, base) == Normal then RowSuffix(offset) else ""
  {
    SuffixIsPlain(offset);
    if EndMode(true, Normal, base) == Normal {
      SuffixReachesStatement(base, RowSuffix(offset));
    } else {
      SkeletonAppend(base, RowSuffix(offset));
      RowSuffixCloses(EndMode(true, Normal, base), offset);
    }
  }

  // ----- an ordering that names a window

  /** Text that starts with a separator adds its own words to those of balanced text. */
  lemma {:induction false} TopWordsAppend(depth: nat, current: string, a: string, b: string)
    requires Balances(depth, a) && (depth > 0 ==> current == "")
    requires b != "" && !IsWord(b[0]) && b[0] != '(' && b[0] != ')'
    ensures TopWords(depth, current, a + b) == TopWords(depth, current, a) + TopWords(0, "", b)
    decreases |a|
  {
    if a == "" {
      assert a + b == b;
      Nothing(TopWords(0, "", b[1..]));
    } else {
      assert (a + b)[0] == a[0] && (a + b)[1..] == a[1..] + b;
      var flushed, d, c := TopWordsFirst(depth, current, a, b);
      TopWordsAppend(d, c, a[1..], b);
      Associate(flushed, TopWords(d, c, a[1..]), TopWords(0, "", b));
    }
  }

  lemma TopWordsFirst(
    depth: nat, current: string, a: string, b: string) returns (flushed: seq<string>, d: nat, c: string)
    requires a != "" && Balances(depth, a) && (depth > 0 ==> current == "")
    ensures Balances(d, a[1..]) && (d > 0 ==> c == "")
    ensures TopWords(depth, current, a) == flushed + TopWords(d, c, a[1..])
    ensures TopWords(depth, current, a + b) == flushed + TopWords(d, c, a[1..] + b)
  {
    assert (a + b)[0] == a[0] && (a + b)[1..] == a[1..] + b;
    if a[0] == '(' {
      flushed, d, c := if depth == 0 then Flush(current) else [], depth + 1, "";
    } else if a[0] == ')' {
      flushed, d, c := [], depth - 1, current;
    } else if depth == 0 && !IsWord(a[0]) {
      flushed, d, c := Flush(current), 0, "";
    } else {
      flushed, d, c := [], depth, if depth == 0 then current + [a[0]] else current;
    }
    Nothing(TopWords(d, c, a[1..]));
    Nothing(TopWords(d, c, a[1..] + b));
  }

  lemma {:induction false} SpaceHasNoTopWords(s: string)
    requires AllSpace(s)
    ensures TopWords(0, "", s) == []
    decreases |s|
  {
    if s != "" {
      assert IsSpace(s[0]);
      SpaceHasNoTopWords(s[1..]);
    }
  }

  lemma {:induction false} TopWordsOfTrail(k: string, space: string)
    requires Balances(0, k) && AllSpace(space)
    ensures TopWords(0, "", k + space) == TopWords(0, "", k)
  {
    if space == "" {
      assert k + space == k;
    } else {
      TopWordsAppend(0, "", k, space);
      SpaceHasNoTopWords(space);
    }
  }

  // ----- the words of the ordering

  lemma {:induction false} WordsOfStrip(s: string)
    ensures Words("", Strip(s)) == Words("", s)
  {
    var lead, trail := Margins(s);
    SpaceIsWordless(lead);
    SpaceIsWordless(trail);
    WordlessTrail(lead + Strip(s), trail);
    WordlessLead(lead, Strip(s));
  }

  lemma {:induction false} JoinSplitAt(s: string)
    ensures Join(SplitAt(s, ','), ",") == s
  {
    if s != "" {
      JoinSplitAt(s[1..]);
      var rest := SplitAt(s[1..], ',');
      if s[0] == ',' {
        assert ([""] + rest)[1..] == rest;
      } else {
        JoinMoreFirst([s[0]], rest[0], rest[1..]);
        assert rest == [rest[0]] + rest[1..];
      }
      assert s == [s[0]] + s[1..];
    }
  }

  lemma {:induction false} JoinMoreFirst(more: string, first: string, rest: seq<string>)
    ensures Join([more + first] + rest, ",") == more + Join([first] + rest, ",")
  {
    assert ([more + first] + rest)[1..] == rest && ([first] + rest)[1..] == rest;
    if rest != [] {
      assert (more + first) + "," + Join(rest, ",") == more + (first + "," + Join(rest, ","));
    }
  }

  lemma {:induction false} WordsOfItem(part: string, rest: string, items: string)
    requires Words("", items) == Words("", rest)
    ensures Words("", Strip(part) + ("," + (" " + items))) == Words("", part + ("," + rest))
  {
    WordsOfStrip(part);
    WordsAcross("", part, ',', rest);
    WordsAcross("", Strip(part), ',', " " + items);
    WordlessLead(" ", items);
  }

  /** Trimming the items and joining them again keeps the words. */
  lemma {:induction false} WordsOfItems(parts: seq<string>)
    requires parts != []
    ensures Words("", Join(StripAll(parts), ", ")) == Words("", Join(parts, ","))
    decreases |parts|
  {
    if |parts| == 1 {
      WordsOfStrip(parts[0]);
    } else {
      var rest := parts[1..];
      var items := StripAll(rest);
      WordsOfItems(rest);
      WordsOfItem(parts[0], Join(rest, ","), Join(items, ", "));
      assert parts == [parts[0]] + rest;
      StripAllFirst(parts[0], rest);
      JoinMore(Strip(parts[0]), items);
      assert parts[0] + "," + Join(rest, ",") == parts[0] + ("," + Join(rest, ","));
    }
  }

  lemma {:induction false} QuietTopWords(current: string, s: string)
    requires IsQuiet(s)
    ensures TopWords(0, current, s) == Words(current, s)
    decreases |s|
  {
    if s != "" {
      assert IsQuietChar(s[0]);
      QuietTopWords(if IsWord(s[0]) then current + [s[0]] else "", s[1..]);
    }
  }

  lemma {:induction false} OrderWords(list: string)
    ensures Words("", " ORDER BY " + list) == ["ORDER", "BY"] + Words("", list)
  {
    KeywordsSpell(list);
    WordlessLead(" ", "ORDER" + (" " + ("BY" + (" " + list))));
    WordThen("ORDER", "BY" + (" " + list));
    WordThen("BY", list);
    assert Upper("ORDER") == "ORDER" && Upper("BY") == "BY";
  }

  lemma KeywordsSpell(list: string)
    ensures " ORDER BY " + list == " " + ("ORDER" + (" " + ("BY" + (" " + list))))
  {
    assert " ORDER BY " == " " + "ORDER" + " " + "BY" + " ";
  }

  lemma {:induction false} WordThen(word: string, rest: string)
    requires word != "" && forall k :: 0 <= k < |word| ==> IsWord(word[k])
    ensures Words("", word + (" " + rest)) == [Upper(word)] + Words("", rest)
  {
    WordsAcross("", word, ' ', rest);
    OneWord("", word);
    assert "" + word == word;
  }

  lemma {:induction false} OneWord(current: string, word: string)
    requires forall k :: 0 <= k < |word| ==> IsWord(word[k])
    ensures Words(current, word) == Flush(current + word)
    decreases |word|
  {
    if word == "" {
      assert current + "" == current;
    } else {
      OneWord(current + [word[0]], word[1..]);
      assert current + [word[0]] + word[1..] == current + word;
    }
  }

  /** The words of the ordering are its keywords and those of the request. */
  lemma ClauseWords(runtime: Runtime, sql: string, orderBy: Option<Value>)
    requires Ordered(runtime, sql, orderBy).Ok? && Truthy(runtime, orderBy)
    ensures TopWords(0, "", OrderClause(runtime, orderBy))
            == ["ORDER", "BY"] + Words("", runtime.text(orderBy.value))
  {
    var asked := runtime.text(orderBy.value);
    var parts := SplitAt(asked, ',');
    OrderClauseIsPlain(runtime, sql, orderBy);
    QuietTopWords("", OrderClause(runtime, orderBy));
    OrderWords(Join(StripAll(parts), ", "));
    WordsOfItems(parts);
    JoinSplitAt(asked);
  }

  /** An accepted query is balanced, also when it is trimmed. */
  lemma TrimmedIsBalanced(sql: string)
    requires Validate(sql, "GET").Valid?
    ensures Balances(0, Skeleton(RStrip(sql)))
    ensures TopWords(0, "", Skeleton(sql)) == TopWords(0, "", Skeleton(RStrip(sql)))
  {
    var space := RStripKeepsSkeleton(sql);
    var k := Skeleton(RStrip(sql));
    AcceptedIff(sql, "GET");
    SpaceIsWordless(space);
    ParensAppend(k, space);
    assert Parens(k) + "" == Parens(k);
    BalanceSeesParens(0, k);
    BalanceSeesParens(0, k + space);
    TopWordsOfTrail(k, space);
  }

  lemma NamesWindowAppend(a: seq<string>, b: seq<string>)
    ensures NamesWindow(a + b) <==> NamesWindow(a) || NamesWindow(b)
  {
    if w :| w in a && w in WINDOW_WORDS {
      assert w in a + b;
    } else if w :| w in b && w in WINDOW_WORDS {
      assert w in a + b;
    }
  }

  lemma {:induction false} QuietSuffixWords(base: string, c: string)
    requires Balances(0, Skeleton(base)) && EndMode(true, Normal, base) == Normal
    requires c != "" && c[0] == ' ' && IsQuiet(c)
    ensures TopWords(0, "", Skeleton(base + c)) == TopWords(0, "", Skeleton(base)) + TopWords(0, "", c)
  {
    QuietSuffix(base, c);
    TopWordsAppend(0, "", Skeleton(base), c);
  }

  lemma KeywordsNameNoWindow(words: seq<string>, asked: seq<string>)
    ensures NamesWindow(words + (["ORDER", "BY"] + asked)) <==> NamesWindow(words) || NamesWindow(asked)
  {
    NamesWindowAppend(words, ["ORDER", "BY"] + asked);
    NamesWindowAppend(["ORDER", "BY"], asked);
    assert !NamesWindow(["ORDER", "BY"]);
  }

  /** The ordered text, and what is known of the clause that was added. */
  lemma {:induction false} OrderedText(runtime: Runtime, sql: string, orderBy: Option<Value>) returns (c: string)
    requires Truthy(runtime, orderBy) && Ordered(runtime, sql, orderBy).Ok?
    ensures c != "" && c[0] == ' ' && IsQuiet(c) && Ordered(runtime, sql, orderBy).value == RStrip(sql) + c
    ensures TopWords(0, "", c) == ["ORDER", "BY"] + Words("", runtime.text(orderBy.value))
  {
    c := OrderClause(runtime, orderBy);
    OrderClauseIsPlain(runtime, sql, orderBy);
    ClauseWords(runtime, sql, orderBy);
    AcceptedItems(runtime, sql, orderBy, StripAll(SplitAt(runtime.text(orderBy.value), ',')));
    assert c != "";
  }

  /** Main result on the window words. An ordering makes an accepted query look as if it had a window
      of its own if and only if a word of the request is a window word, a column of that name say. */
  lemma OrderingNamesWindow(runtime: Runtime, sql: string, orderBy: Option<Value>)
    requires Validate(sql, "GET").Valid? && EndMode(true, Normal, RStrip(sql)) == Normal
    requires Truthy(runtime, orderBy) && Ordered(runtime, sql, orderBy).Ok?
    ensures HasWindow(Ordered(runtime, sql, orderBy).value)
            <==> HasWindow(sql) || NamesWindow(Words("", runtime.text(orderBy.value)))
  {
    var c := OrderedText(runtime, sql, orderBy);
    TrimmedIsBalanced(sql);
    QuietSuffixWords(RStrip(sql), c);
    KeywordsNameNoWindow(TopWords(0, "", Skeleton(sql)), Words("", runtime.text(orderBy.value)));
  }

  /** What stands inside parentheses decides neither whether a query already has an ordering, nor
      whether it already has a window. */
  lemma {:induction false} OptionsIgnoreGroups(sql: string, other: string, t: Nest, u: Nest)
    requires Skeleton(sql) == Flat(t) && Skeleton(other) == Flat(u)
    requires WellNested(t) && WellNested(u) && Outline(t) == Outline(u)
    ensures HasWindow(sql) <==> HasWindow(other)
    ensures HasOrderBy(TopWords(0, "", Skeleton(sql))) <==> HasOrderBy(TopWords(0, "", Skeleton(other)))
  {
    GroupContentIsInvisible(t, u);
  }
}

/** Accepted queries that do not get what their options ask for. */
module RewriteExamples {
  import opened Wrappers
  import opened Text
  import opened Lexer
  import opened LexerTheorems
  import opened Splitting
  import opened Nesting
  import opened Parameters
  import opened Pagination
  import opened PaginationTheorems
  import opened RewriteTheorems
  import opened Validation
  import opened PolicyTheorems
  import opened PolicyMeaning

  const QUERY := "select 1"

  predicate IsWholeWord(word: string) {
    word != "" && forall k :: 0 <= k < |word| ==> IsWord(word[k])
  }

  lemma {:induction false} TwoWords(a: string, b: string)
    requires IsWholeWord(a) && IsWholeWord(b)
    ensures Words("", a + (" " + b)) == [Upper(a), Upper(b)]
  {
    WordsAcross("", a, ' ', b);
    OneWord("", a);
    OneWord("", b);
    assert "" + a == a && "" + b == b;
  }

  lemma QueryWords()
    ensures AllWords(QUERY) == ["SELECT", "1"] == TopWords(0, "", QUERY)
  {
    var upper := Upper(QUERY);
    assert upper == "SELECT" + (" " + "1");
    assert QUERY == "select" + (" " + "1");
    QueryIsQuiet();
    QuietTopWords("", QUERY);
    UpperSpelling();
    LowerSpelling();
    WordsOfQuery("SELECT");
    WordsOfQuery("select");
  }

  lemma UpperSpelling()
    ensures IsWholeWord("SELECT") && Upper("SELECT") == "SELECT"
  {
  }

  lemma LowerSpelling()
    ensures IsWholeWord("select") && Upper("select") == "SELECT"
  {
  }

  lemma {:induction false} WordsOfQuery(word: string)
    requires IsWholeWord(word) && Upper(word) == "SELECT"
    ensures Words("", word + (" " + "1")) == ["SELECT", "1"]
  {
    TwoWords(word, "1");
    assert Upper("1") == "1";
  }

  lemma QueryIsQuiet()
    ensures IsQuiet(QUERY)
  {
  }

  lemma {:induction false} QuietHasNoParens(s: string)
    requires IsQuiet(s)
    ensures Parens(s) == ""
    decreases |s|
  {
    if s != "" {
      assert IsQuietChar(s[0]);
      QuietHasNoParens(s[1..]);
    }
  }

  lemma QueryIsPermitted(k: string)
    requires AllWords(k) == ["SELECT", "1"]
    ensures Permitted(k)
  {
    assert Words("", Upper(k)) == ["SELECT"] + ["1"];
    assert !IsToken("1");
    assert "SELECT"[0] == 'S';
    forall w | w in Tokens(k) ensures w == "SELECT" {
    }
    assert forall w | w in FORBIDDEN :: w != "SELECT";
  }

  lemma QueryType()
    ensures TypeOfScrubbed(QUERY) == "select" && !ControlsTransaction(QUERY)
  {
    var upper := Upper(QUERY);
    assert upper == "SELECT" + " 1" && LStrip(upper) == upper;
    assert upper[0] == 'S' && upper[1] == 'E' && upper[2] == 'L';
    LettersThen("SELECT", " 1");
    assert Lower("SELECT") == "select";
  }

  lemma {:induction false} QueryIsAlike(k: string)
    requires Statements(Strip(k)) == [QUERY]
    ensures Permitted(k) && Balances(0, k)
  {
    TightIsStripped(QUERY);
    StatementIsAlike(Strip(k));
    StripIsAlike(k);
    QueryWords();
    QueryIsPermitted(k);
    QueryIsQuiet();
    QuietHasNoParens(QUERY);
    BalanceSeesParens(0, k);
  }

  /** Whatever surrounds it, a text whose one statement is the query is accepted. */
  lemma QueryIsAccepted(sql: string)
    requires Statements(Strip(Skeleton(sql))) == [QUERY]
    ensures Validate(sql, "GET").Valid?
  {
    QueryIsAlike(Skeleton(sql));
    TightIsStripped(QUERY);
    QueryType();
    KnownMethod();
    AcceptedIff(sql, "GET");
  }

  lemma KnownMethod()
    ensures Upper("GET") == "GET" && "GET" in METHODS && "select" in Allowed("GET")
  {
    assert METHODS[0] == "GET";
  }

  lemma {:induction false} OneSegment(items: seq<Item>)
    requires Code(';') !in items
    ensures Segments(items) == [items] && Segments(items + [Code(';')]) == [items, []]
  {
    PrependSegment(items, []);
    assert items + [] == items;
    var end := [Code(';')];
    assert end[1..] == [] && Segments(end) == [[], []];
    PrependSegment(items, end);
  }

  lemma OneText(text: string)
    requires !Blank(text)
    ensures NonBlank([text]) == [text] == NonBlank([text, ""])
    ensures Blank("")
  {
    assert "" + "" + "" == "";
    StripFindsCore("", "", "");
    assert [text] == [text] + [] && [text, ""] == [text] + [""];
    NonBlankFirst("", []);
    assert ([text] + [""])[1..] == [""] && [text][1..] == [] && [""] == [""] + [];
  }

  lemma {:induction false} OneOrTwoTexts(items: seq<Item>)
    ensures Texts([items]) == [Source(items)] && Texts([items, []]) == [Source(items), ""]
  {
    FirstText(items, []);
    FirstText(items, [[]]);
    FirstText([], []);
    var none: seq<seq<Item>>, blank: seq<Item> := [], [];
    assert [items] == [items] + none && [items, blank] == [items] + [blank] && [blank] == [blank] + none;
  }

  /** Plain text is one statement, also when a semicolon ends it. */
  lemma PlainStatements(s: string)
    requires IsPlain(s) && !Blank(s)
    ensures Statements(s) == [s] == Statements(s + ";")
    ensures IsClosed(s + ";") && !IsClosed(s)
  {
    var items := Lex(false, Normal, s);
    PlainItems(s);
    PlainEnds(s);
    LexIsFaithful(false, Normal, s);
    SemicolonEnds(s);
    OneSegment(items);
    OneOrTwoTexts(items);
    OneText(s);
  }

  lemma {:induction false} SemicolonEnds(s: string)
    requires EndMode(false, Normal, s) == Normal
    ensures Lex(false, Normal, s + ";") == Lex(false, Normal, s) + [Code(';')]
  {
    LexAppend(false, Normal, s, ";");
    assert ";"[1..] == "" && Lex(false, Normal, "") == [];
    Unfold(false, Normal, ";");
  }

  lemma {:induction false} PlainEnds(s: string)
    requires IsPlain(s)
    ensures EndMode(false, Normal, s) == Normal
    decreases |s|
  {
    if s != "" {
      PlainEnds(s[1..]);
    }
  }

  // ----- a query that ends in a comment

  /** Plain text is its own skeleton, whatever follows it. */
  lemma {:induction false} PlainThen(s: string, tail: string)
    requires IsPlain(s) && !Straddles(s, tail)
    ensures Skeleton(s + tail) == s + SkeletonFrom(Normal, tail)
    ensures EndMode(true, Normal, s + tail) == EndMode(true, Normal, tail)
  {
    PlainIsCode(s);
    SkeletonAppend(s, tail);
    LexAppend(true, Normal, s, tail);
    assert Skeleton(s) == SkeletonFrom(Normal, s);
  }

  lemma CommentTail()
    ensures SkeletonFrom(Normal, "--") == " " && EndMode(true, Normal, "--") == LineComment
  {
    assert "--"[2..] == "";
    SkeletonUnfold(Normal, "--");
    assert Source([Code(' ')]) == " " by {
      SourceFirst(Code(' '), []);
    }
    assert SkeletonFrom(LineComment, "") == "";
  }

  lemma SemicolonTail()
    ensures SkeletonFrom(Normal, ";") == ";" && EndMode(true, Normal, ";") == Normal
  {
    assert ";"[1..] == "";
    SkeletonUnfold(Normal, ";");
    SourceFirst(Code(';'), []);
    assert SkeletonFrom(Normal, "") == "";
  }

  const COMMENTED := QUERY + "--"
  const CLOSED := QUERY + ";"

  lemma CommentedScans()
    ensures Skeleton(COMMENTED) == QUERY + " " && EndMode(true, Normal, COMMENTED) == LineComment
    ensures RStrip(COMMENTED) == COMMENTED
  {
    QueryIsQuiet();
    CommentTail();
    PlainThen(QUERY, "--");
  }

  lemma ClosedScans()
    ensures Skeleton(CLOSED) == CLOSED && EndMode(true, Normal, CLOSED) == Normal
    ensures RStrip(CLOSED) == CLOSED == Strip(CLOSED)
  {
    QueryIsQuiet();
    SemicolonTail();
    PlainThen(QUERY, ";");
    TightIsStripped(CLOSED);
  }

  lemma QueryScans()
    ensures Skeleton(QUERY) == QUERY && EndMode(true, Normal, QUERY) == Normal
    ensures RStrip(QUERY) == QUERY == Strip(QUERY)
  {
    QueryIsQuiet();
    PlainIsCode(QUERY);
    assert Skeleton(QUERY) == SkeletonFrom(Normal, QUERY);
    TightIsStripped(QUERY);
  }

  lemma QueryNamesNoWindow(sql: string)
    requires TopWords(0, "", Skeleton(sql)) == ["SELECT", "1"]
    ensures !HasWindow(sql) && !HasOrderBy(TopWords(0, "", Skeleton(sql)))
  {
  }

  lemma QueryBalances()
    ensures Balances(0, QUERY)
  {
    QueryIsQuiet();
    QuietHasNoParens(QUERY);
    BalanceSeesParens(0, QUERY);
  }

  lemma CommentedIsAccepted()
    ensures Validate(COMMENTED, "GET").Valid? && !HasWindow(COMMENTED)
  {
    CommentedScans();
    StripSkipsTrail(QUERY, " ");
    QueryScans();
    QueryIsQuiet();
    PlainStatements(QUERY);
    QueryIsAccepted(COMMENTED);
    QueryBalances();
    TopWordsOfTrail(QUERY, " ");
    QueryWords();
    QueryNamesNoWindow(COMMENTED);
  }

  lemma ClosedIsAccepted()
    ensures Validate(CLOSED, "GET").Valid? && !HasWindow(CLOSED) && |Statements(Skeleton(CLOSED))| == 1
    ensures IsClosed(Skeleton(CLOSED))
  {
    ClosedScans();
    QueryIsQuiet();
    TightIsStripped(QUERY);
    PlainStatements(QUERY);
    QueryIsAccepted(CLOSED);
    ClosedWords();
    QueryNamesNoWindow(CLOSED);
  }

  lemma ClosedWords()
    ensures TopWords(0, "", CLOSED) == ["SELECT", "1"]
  {
    QueryBalances();
    TopWordsAppend(0, "", QUERY, ";");
    assert TopWords(0, "", ";") == [];
    QueryWords();
  }

  lemma PlainQueryIsAccepted()
    ensures Validate(QUERY, "GET").Valid? && TopWords(0, "", Skeleton(QUERY)) == ["SELECT", "1"]
  {
    QueryScans();
    QueryIsQuiet();
    PlainStatements(QUERY);
    QueryIsAccepted(QUERY);
    QueryWords();
  }

  /** Without an ordering, and without a window of its own, the trimmed text is followed by the row
      clause. */
  lemma RowsFollow(
    runtime: Runtime, sql: string, params: map<string, Value>, options: Options, maxRows: int) returns (offset: int)
    requires !Truthy(runtime, options.orderBy) && RowWindow(runtime, options, maxRows).Ok? && !HasWindow(sql)
    ensures offset == RowWindow(runtime, options, maxRows).value.1
    ensures ApplyOptions(runtime, sql, params, options, maxRows).Ok?
    ensures ApplyOptions(runtime, sql, params, options, maxRows).value.0 == RStrip(sql) + RowSuffix(offset)
  {
    offset := RowWindow(runtime, options, maxRows).value.1;
  }

  /** A query that ends in a line comment is accepted, and its row clause is lost in the comment:
      whatever the options ask for, the database is sent the statement as it was. */
  lemma CommentLosesRows(
    runtime: Runtime, params: map<string, Value>, options: Options, maxRows: int) returns (offset: int)
    requires !Truthy(runtime, options.orderBy) && RowWindow(runtime, options, maxRows).Ok?
    ensures Validate(COMMENTED, "GET").Valid?
    ensures offset == RowWindow(runtime, options, maxRows).value.1
    ensures var result := ApplyOptions(runtime, COMMENTED, params, options, maxRows);
            && result.Ok?
            && result.value.0 == COMMENTED + RowSuffix(offset)
            && Skeleton(result.value.0) == Skeleton(COMMENTED)
  {
    CommentedIsAccepted();
    CommentedScans();
    offset := RowsFollow(runtime, COMMENTED, params, options, maxRows);
    RowsReachOrVanish(COMMENTED, offset);
  }

  lemma MoreStatementsAreRefused(sql: string)
    requires |Statements(Skeleton(sql))| != 1
    ensures !Validate(sql, "GET").Valid?
  {
    AcceptedIff(sql, "GET");
    StripKeepsCount(Skeleton(sql));
  }

  /** A query that ends with a semicolon is accepted, and its row clause becomes a second statement,
      which the policy would not have accepted. */
  lemma SemicolonClosesQuery(
    runtime: Runtime, params: map<string, Value>, options: Options, maxRows: int) returns (offset: int)
    requires !Truthy(runtime, options.orderBy) && RowWindow(runtime, options, maxRows).Ok?
    ensures Validate(CLOSED, "GET").Valid?
    ensures offset == RowWindow(runtime, options, maxRows).value.1
    ensures var result := ApplyOptions(runtime, CLOSED, params, options, maxRows);
            && result.Ok?
            && result.value.0 == CLOSED + RowSuffix(offset)
            && |Statements(Skeleton(result.value.0))| == 2
            && !Validate(result.value.0, "GET").Valid?
  {
    ClosedIsAccepted();
    ClosedScans();
    offset := RowsFollow(runtime, CLOSED, params, options, maxRows);
    ClosedRows(offset);
    MoreStatementsAreRefused(CLOSED + RowSuffix(offset));
  }

  lemma ClosedRows(offset: int)
    ensures |Statements(Skeleton(CLOSED + RowSuffix(offset)))| == 2
  {
    ClosedIsAccepted();
    ClosedScans();
    SuffixIsPlain(offset);
    RowSuffixStarts(offset);
    SuffixStaysInStatement(CLOSED, RowSuffix(offset));
  }

  // ----- an ordering that names a window

  lemma OffsetIsAColumn()
    ensures IsOrderItem("offset")
  {
    ColumnRuns("ffset");
  }

  lemma {:induction false} ColumnRuns(s: string)
    requires forall k :: 0 <= k < |s| ==> IsColumnChar(s[k])
    ensures ColumnRun(s) == |s|
  {
    if s != "" {
      ColumnRuns(s[1..]);
    }
  }

  lemma OffsetItems()
    ensures StripAll(SplitAt("offset", ',')) == ["offset"]
  {
    SplitWithout("offset");
    TightIsStripped("offset");
    StripAllFirst("offset", []);
    assert ["offset"] + [] == ["offset"];
  }

  lemma OrderedByOffset(runtime: Runtime, orderBy: Option<Value>)
    requires Truthy(runtime, orderBy) && runtime.text(orderBy.value) == "offset"
    requires !HasOrderBy(TopWords(0, "", Skeleton(QUERY))) && RStrip(QUERY) == QUERY
    ensures Ordered(runtime, QUERY, orderBy) == Ok(QUERY + (" ORDER BY " + "offset"))
  {
    OffsetItems();
    OffsetIsAColumn();
    assert Join(["offset"], ", ") == "offset";
  }

  lemma OffsetNamesWindow()
    ensures NamesWindow(Words("", "offset"))
  {
    OneWord("", "offset");
    assert "" + "offset" == "offset" && Upper("offset") == "OFFSET";
    assert "OFFSET" in Words("", "offset");
    assert WINDOW_WORDS[3] == "OFFSET";
  }

  /** An ordering by a column named `offset` is accepted, and the window asked for is dropped. */
  lemma OrderByOffsetDropsWindow(
    runtime: Runtime, params: map<string, Value>, options: Options, maxRows: int)
    requires Truthy(runtime, options.orderBy) && runtime.text(options.orderBy.value) == "offset"
    requires RowWindow(runtime, options, maxRows).Ok?
    ensures Validate(QUERY, "GET").Valid?
    ensures ApplyOptions(runtime, QUERY, params, options, maxRows) == Ok((QUERY + (" ORDER BY " + "offset"), params))
  {
    PlainQueryIsAccepted();
    QueryScans();
    QueryNamesNoWindow(QUERY);
    OrderedByOffset(runtime, options.orderBy);
    OffsetNamesWindow();
    OrderingNamesWindow(runtime, QUERY, options.orderBy);
  }
}

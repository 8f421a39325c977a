/** The rewritten query means what the options ask for. */
module PaginationTheorems {
  import opened Wrappers
  import opened Text
  import opened Lexer
  import opened LexerTheorems
  import opened Scanners
  import opened Nesting
  import opened Splitting
  import opened Parameters
  import opened Pagination

  // ----- binds of appended text

  function LastChar(prev: char, s: string): char {
    if s == "" then prev else s[|s| - 1]
  }

  lemma {:induction false} WordRunStops(a: string, b: string)
    requires b == "" || !IsWord(b[0])
    ensures WordRun(a + b) == WordRun(a)
  {
    if a == "" {
      assert a + b == b;
    } else if IsWord(a[0]) {
      assert (a + b)[1..] == a[1..] + b;
      WordRunStops(a[1..], b);
    }
  }

  /** Whether a text starts with a bind. */
  predicate AtBind(prev: char, a: string) {
    a != "" && a[0] == ':' && prev != ':' && IsName(WordRun(a[1..]))
  }

  lemma {:induction false} BindFirst(prev: char, a: string, w: string)
    requires AtBind(prev, a) && w == WordRun(a[1..])
    ensures w != "" && 1 + |w| <= |a|
    ensures Binds(prev, a) == [w] + Binds(w[|w| - 1], a[1 + |w|..])
    ensures LastChar(prev, a) == LastChar(w[|w| - 1], a[1 + |w|..])
  {
    assert a[1..][..|w|] == w;
    assert a[|w|] == w[|w| - 1];
  }

  lemma SkipInto(a: string, b: string, k: nat)
    requires k <= |a|
    ensures (a + b)[k..] == a[k..] + b
  {
  }

  lemma {:induction false} BindLater(prev: char, a: string)
    requires a != "" && !AtBind(prev, a)
    ensures Binds(prev, a) == Binds(a[0], a[1..]) && LastChar(prev, a) == LastChar(a[0], a[1..])
  {
  }

  lemma BindStays(prev: char, a: string, b: string)
    requires a != "" && (b == "" || !IsWord(b[0]))
    ensures (AtBind(prev, a + b) <==> AtBind(prev, a)) && WordRun((a + b)[1..]) == WordRun(a[1..])
    ensures (a + b)[1..] == a[1..] + b
  {
    assert (a + b)[1..] == a[1..] + b;
    WordRunStops(a[1..], b);
  }

  /** One step of the bind search, which text that cannot continue a name does not disturb. */
  lemma {:induction false} BindsStep(
    prev: char, a: string, b: string) returns (names: seq<string>, last: char, rest: string)
    requires a != "" && (b == "" || !IsWord(b[0]))
    ensures |rest| < |a| && LastChar(last, rest) == LastChar(prev, a)
    ensures Binds(prev, a) == names + Binds(last, rest)
    ensures Binds(prev, a + b) == names + Binds(last, rest + b)
  {
    if AtBind(prev, a) {
      names, last, rest := BindStep(prev, a, b);
    } else {
      names, last, rest := [], a[0], a[1..];
      CharStep(prev, a, b);
    }
  }

  lemma {:induction false} BindStep(
    prev: char, a: string, b: string) returns (names: seq<string>, last: char, rest: string)
    requires AtBind(prev, a) && (b == "" || !IsWord(b[0]))
    ensures |rest| < |a| && LastChar(last, rest) == LastChar(prev, a)
    ensures Binds(prev, a) == names + Binds(last, rest)
    ensures Binds(prev, a + b) == names + Binds(last, rest + b)
  {
    BindStays(prev, a, b);
    var w := WordRun(a[1..]);
    BindFirst(prev, a, w);
    BindFirst(prev, a + b, w);
    SkipInto(a, b, 1 + |w|);
    names, last, rest := [w], w[|w| - 1], a[1 + |w|..];
  }

  lemma {:induction false} CharStep(prev: char, a: string, b: string)
    requires a != "" && !AtBind(prev, a) && (b == "" || !IsWord(b[0]))
    ensures LastChar(a[0], a[1..]) == LastChar(prev, a)
    ensures Binds(prev, a) == [] + Binds(a[0], a[1..])
    ensures Binds(prev, a + b) == [] + Binds(a[0], a[1..] + b)
  {
    BindStays(prev, a, b);
    BindLater(prev, a);
    BindLater(prev, a + b);
    Nothing(Binds(a[0], a[1..]));
    Nothing(Binds(a[0], a[1..] + b));
  }

  lemma Nothing<T>(s: seq<T>)
    ensures [] + s == s
  {
  }

  lemma {:induction false} BindsAppend(prev: char, a: string, b: string)
    requires b == "" || !IsWord(b[0])
    ensures Binds(prev, a + b) == Binds(prev, a) + Binds(LastChar(prev, a), b)
    decreases |a|
  {
    if a == "" {
      assert a + b == b;
    } else {
      var names, last, rest := BindsStep(prev, a, b);
      BindsAppend(last, rest, b);
      Associate(names, Binds(last, rest), Binds(LastChar(prev, a), b));
    }
  }

  lemma {:induction false} NoColonNoBind(prev: char, s: string)
    requires forall k :: 0 <= k < |s| ==> s[k] != ':'
    ensures Binds(prev, s) == []
    decreases |s|
  {
    if s != "" {
      NoColonNoBind(s[0], s[1..]);
    }
  }

  lemma {:induction false} WholeWordRun(w: string)
    requires forall k :: 0 <= k < |w| ==> IsWord(w[k])
    ensures WordRun(w) == w
  {
    if w != "" {
      WholeWordRun(w[1..]);
    }
  }

  /** A marked name after text without colons. */
  lemma {:induction false} OneBind(prev: char, lead: string, name: string)
    requires lead != "" && forall k :: 0 <= k < |lead| ==> lead[k] != ':'
    requires IsName(name) && lead[|lead| - 1] != ':'
    ensures Binds(prev, lead + (":" + name)) == [name]
  {
    BindsAppend(prev, lead, ":" + name);
    NoColonNoBind(prev, lead);
    assert forall k :: 0 <= k < |name| ==> name[k] in name;
    WholeWordRun(name);
    assert (":" + name)[1..] == name;
    assert (":" + name)[1 + |name|..] == "";
  }

  function RowSuffix(offset: int): string {
    if offset != 0 then RANGE_SUFFIX else LIMIT_SUFFIX
  }

  function RowNames(offset: int): seq<string> {
    if offset != 0 then [ROW_START, ROW_END] else [ROW_LIMIT]
  }

  lemma {:induction false} SuffixBinds(prev: char, offset: int)
    ensures Binds(prev, RowSuffix(offset)) == RowNames(offset)
  {
    if offset != 0 {
      TwoBinds(prev, " ROWS ", ROW_START, " TO ", ROW_END);
    } else {
      OneBind(prev, " ROWS ", ROW_LIMIT);
    }
  }

  lemma {:induction false} TwoBinds(prev: char, lead: string, first: string, between: string, second: string)
    requires lead != "" && (forall k :: 0 <= k < |lead| ==> lead[k] != ':') && IsName(first)
    requires between != "" && (forall k :: 0 <= k < |between| ==> between[k] != ':') && IsName(second)
    requires !IsWord(between[0])
    ensures Binds(prev, (lead + (":" + first)) + (between + (":" + second))) == [first, second]
  {
    var a, b := lead + (":" + first), between + (":" + second);
    assert b[0] == between[0];
    BindsAppend(prev, a, b);
    OneBind(prev, lead, first);
    OneBind(LastChar(prev, a), between, second);
  }

  lemma SuffixIsPlain(offset: int)
    ensures IsPlain(RowSuffix(offset)) && RowSuffix(offset)[0] == ' '
  {
    var limit, from, to := ":" + ROW_LIMIT, ":" + ROW_START, ":" + ROW_END;
    assert IsPlain(" ROWS ") && IsPlain(" TO ");
    assert IsPlain(limit) && IsPlain(from) && IsPlain(to);
    PlainAppend(" ROWS ", limit);
    PlainAppend(" ROWS ", from);
    PlainAppend(" TO ", to);
    PlainAppend(" ROWS " + from, " TO " + to);
  }

  lemma PlainAppend(a: string, b: string)
    requires IsPlain(a) && IsPlain(b)
    ensures IsPlain(a + b) && (a != "" ==> (a + b)[0] == a[0])
  {
  }

  lemma {:induction false} SpaceLeavesSpace(m: Mode, s: string)
    requires AllSpace(s)
    ensures AllSpace(SkeletonFrom(m, s))
    decreases |s|
  {
    if s != "" {
      assert IsSpace(s[0]);
      var t := Read(true, m, s);
      SkeletonUnfold(m, s);
      SpaceLeavesSpace(t.mode, s[t.width..]);
    }
  }

  /** Trailing whitespace carries no bind. */
  lemma RStripKeepsBinds(sql: string)
    ensures BindNames(RStrip(sql)) == BindNames(sql)
  {
    var base, space := RStrip(sql), sql[TextEnd(sql)..];
    assert sql == base + space;
    assert space != "" ==> IsSpace(space[0]);
    SkeletonAppend(base, space);
    var tail := SkeletonFrom(EndMode(true, Normal, base), space);
    SpaceLeavesSpace(EndMode(true, Normal, base), space);
    SpaceAddsNoBind(Skeleton(base), tail);
  }

  lemma {:induction false} SpaceAddsNoBind(k: string, tail: string)
    requires AllSpace(tail)
    ensures Binds(' ', k + tail) == Binds(' ', k)
  {
    assert forall i :: 0 <= i < |tail| ==> IsSpace(tail[i]);
    BindsAppend(' ', k, tail);
    NoColonNoBind(LastChar(' ', k), tail);
  }

  lemma {:induction false} QuietTextAddsNoBind(k: string, tail: string)
    requires IsQuiet(tail) && (tail != "" ==> tail[0] == ' ')
    ensures Binds(' ', k + tail) == Binds(' ', k)
  {
    BindsAppend(' ', k, tail);
    NoColonNoBind(LastChar(' ', k), tail);
  }

  // ----- the rewrite

  /** Appended quiet text changes neither the end state nor the binds. */
  lemma {:induction false} QuietSuffix(base: string, suffix: string)
    requires EndMode(true, Normal, base) == Normal
    requires IsQuiet(suffix) && (suffix != "" ==> suffix[0] == ' ')
    ensures EndMode(true, Normal, base + suffix) == Normal
    ensures Skeleton(base + suffix) == Skeleton(base) + suffix
    ensures BindNames(base + suffix) == BindNames(base)
  {
    SkeletonAppend(base, suffix);
    LexAppend(true, Normal, base, suffix);
    PlainIsCode(suffix);
    QuietTextAddsNoBind(Skeleton(base), suffix);
  }

  /** Main result on the text. When the query ends as code and names no window of its own, the
      skeleton of the rewritten query is the old one, the ordering and the row clause, and its
      binds are the old ones and the row parameters. */
  lemma RewriteExtendsSkeleton(
    runtime: Runtime, sql: string, params: map<string, Value>, options: Options, maxRows: int
  ) returns (ordering: string)
    requires EndMode(true, Normal, RStrip(sql)) == Normal
    requires ApplyOptions(runtime, sql, params, options, maxRows).Ok?
    requires !HasWindow(Ordered(runtime, sql, options.orderBy).value)
    ensures var (limit, offset) := RowWindow(runtime, options, maxRows).value;
            var (text, binds) := ApplyOptions(runtime, sql, params, options, maxRows).value;
            && Skeleton(text) == Skeleton(RStrip(sql)) + ordering + RowSuffix(offset)
            && BindNames(text) == BindNames(sql) + RowNames(offset)
            && Skeleton(RStrip(Ordered(runtime, sql, options.orderBy).value))
               == Skeleton(RStrip(sql)) + ordering
  {
    ordering := OrderedAddsSuffix(runtime, sql, options.orderBy);
    var (limit, offset) := RowWindow(runtime, options, maxRows).value;
    var base := RStrip(sql);
    QuietSuffix(base, ordering);
    RStripKeepsBinds(sql);
    RowsExtend(base + ordering, offset);
  }

  lemma {:induction false} RowsExtend(base: string, offset: int)
    requires EndMode(true, Normal, base) == Normal
    ensures Skeleton(base + RowSuffix(offset)) == Skeleton(base) + RowSuffix(offset)
    ensures BindNames(base + RowSuffix(offset)) == BindNames(base) + RowNames(offset)
  {
    SuffixIsPlain(offset);
    SuffixReachesStatement(base, RowSuffix(offset));
    SuffixExtendsBinds(Skeleton(base), offset);
  }

  lemma {:induction false} SuffixExtendsBinds(k: string, offset: int)
    ensures Binds(' ', k + RowSuffix(offset)) == Binds(' ', k) + RowNames(offset)
  {
    SuffixIsPlain(offset);
    SuffixBinds(LastChar(' ', k), offset);
    BindsAppend(' ', k, RowSuffix(offset));
  }

  // ----- one statement or two

  /** What follows the last semicolon outside literals. */
  function Tail(text: string): string {
    var segments := Segments(Lex(false, Normal, text));
    Source(segments[|segments| - 1])
  }

  /** Nothing but blanks follows the last semicolon, so that nothing added belongs to a statement. */
  predicate IsClosed(text: string) {
    Blank(Tail(text))
  }

  lemma {:induction false} SkeletonItems(sql: string)
    ensures Lex(false, Normal, Skeleton(sql)) == Scrub(Uncomment(Lex(true, Normal, sql)))
  {
    UncommentedLexesAlike(false, Normal, sql);
    UncommentIsCommentFree(Lex(true, Normal, sql));
    ScrubbedLexesAlike(false, Normal, WithoutComments(sql));
  }

  /** The last segment takes what is appended. */
  function Extend(g: seq<seq<Item>>, b: seq<Item>): seq<seq<Item>>
    requires g != []
  {
    g[..|g| - 1] + [g[|g| - 1] + b]
  }

  lemma {:induction false} SegmentsAppend(a: seq<Item>, b: seq<Item>)
    requires Code(';') !in b
    ensures Segments(a + b) == Extend(Segments(a), b)
  {
    if a == [] {
      PrependSegment(b, []);
      assert a + b == b + [];
      assert [] + b == b + [];
    } else {
      var g := Segments(a[1..]);
      SegmentsAppend(a[1..], b);
      assert (a + b)[1..] == a[1..] + b;
      if a[0] == Code(';') {
        assert [[]] + Extend(g, b) == Extend([[]] + g, b);
      } else {
        ExtendFirst(a[0], g, b);
      }
    }
  }

  lemma ExtendFirst(x: Item, g: seq<seq<Item>>, b: seq<Item>)
    requires g != []
    ensures [[x] + Extend(g, b)[0]] + Extend(g, b)[1..] == Extend([[x] + g[0]] + g[1..], b)
  {
    if |g| == 1 {
      Associate([x], g[0], b);
    }
  }

  lemma {:induction false} NonBlankCount(texts: seq<string>, last: string)
    ensures |NonBlank(texts + [last])| == |NonBlank(texts)| + if Blank(last) then 0 else 1
  {
    if texts == [] {
      assert texts + [last] == [last];
    } else {
      NonBlankCount(texts[1..], last);
      assert (texts + [last])[1..] == texts[1..] + [last];
    }
  }

  lemma {:induction false} TextsAppend(g: seq<seq<Item>>, last: seq<Item>)
    ensures Texts(g + [last]) == Texts(g) + [Source(last)]
  {
    if g != [] {
      TextsAppend(g[1..], last);
      assert (g + [last])[1..] == g[1..] + [last];
    }
  }

  /** Counting statements by the last piece. */
  lemma {:induction false} CountByLast(items: seq<Item>)
    ensures var g := Segments(items);
            var n := |g| - 1;
            |NonBlank(Texts(g))| == |NonBlank(Texts(g[..n]))| + if Blank(Source(g[n])) then 0 else 1
  {
    var g := Segments(items);
    var n := |g| - 1;
    assert g == g[..n] + [g[n]];
    TextsAppend(g[..n], g[n]);
    NonBlankCount(Texts(g[..n]), Source(g[n]));
  }

  lemma NotBlank(s: string, k: nat)
    requires k < |s| && !IsSpace(s[k])
    ensures !Blank(s)
  {
    var lead, trail := Margins(s);
    assert AllSpace(lead + trail);
    assert lead + "" + trail == lead + trail;
  }

  /** A suffix after a trailing semicolon becomes a second statement; otherwise the number of
      statements stays what it was. */
  lemma {:induction false} SuffixStaysInStatement(base: string, suffix: string)
    requires EndMode(true, Normal, base) == Normal
    requires |suffix| > 1 && suffix[0] == ' ' && !IsSpace(suffix[1]) && IsPlain(suffix)
    ensures |Statements(Skeleton(base + suffix))|
            == |Statements(Skeleton(base))| + if IsClosed(Skeleton(base)) then 1 else 0
  {
    var a := Scrub(Uncomment(Lex(true, Normal, base)));
    var b := Lex(false, Normal, suffix);
    SuffixItems(base, suffix);
    SkeletonItems(base);
    SkeletonItems(base + suffix);
    SegmentsAppend(a, b);
    CountByLast(a);
    CountByLast(a + b);
    var last := Segments(a)[|Segments(a)| - 1];
    SourceAppend(last, b);
    LexIsFaithful(false, Normal, suffix);
    NotBlank(Source(last) + suffix, |Source(last)| + 1);
  }

  /** Plain text contributes its characters, whichever scan reads it. */
  lemma {:induction false} PlainItems(s: string)
    requires IsPlain(s)
    ensures Scrub(Uncomment(Lex(true, Normal, s))) == Lex(false, Normal, s)
    ensures Code(';') !in Lex(false, Normal, s)
    decreases |s|
  {
    if s != "" {
      assert Read(true, Normal, s) == Step(Code(s[0]), 1, Normal) == Read(false, Normal, s);
      Unfold(true, Normal, s);
      Unfold(false, Normal, s);
      ScrubAppend([Code(s[0])], Uncomment(Lex(true, Normal, s[1..])));
      PlainItems(s[1..]);
    }
  }

  lemma {:induction false} SuffixItems(base: string, suffix: string)
    requires EndMode(true, Normal, base) == Normal
    requires suffix != "" && suffix[0] == ' ' && IsPlain(suffix)
    ensures var b := Lex(false, Normal, suffix);
            && Code(';') !in b
            && Scrub(Uncomment(Lex(true, Normal, base + suffix))) == Scrub(Uncomment(Lex(true, Normal, base))) + b
  {
    PlainItems(suffix);
    LexAppend(true, Normal, base, suffix);
    UncommentAppend(Lex(true, Normal, base), Lex(true, Normal, suffix));
    ScrubAppend(Uncomment(Lex(true, Normal, base)), Uncomment(Lex(true, Normal, suffix)));
  }

  // ----- the rows

  function Clip(i: int, n: nat): (k: nat)
    ensures k <= n
  {
    if i < 0 then 0 else if i < n then i else n
  }

  /** The rows at the places `from`, `from + 1`, ... below `to`. */
  function Slice<R>(rows: seq<R>, from: int, to: int): seq<R> {
    var k := Clip(from, |rows|);
    rows[k..if Clip(to, |rows|) < k then k else Clip(to, |rows|)]
  }

  predicate HasInt(given: map<string, Value>, name: string) {
    name in given && given[name].Int?
  }

  /** What the database answers to a statement whose skeleton is `base`, possibly followed by a row
      clause: `ROWS n` keeps the first `n` rows, `ROWS m TO n` the rows `m` to `n`, counted from
      one. `full` is the answer to `base` itself, whatever whitespace ends it. A clause after a
      semicolon is refused. */
  function DatabaseRows<R>(base: string, full: seq<R>, text: string, given: map<string, Value>): Option<seq<R>> {
    if RStrip(text) == RStrip(base) then Some(full)
    else if IsClosed(base) then None
    else if text == base + LIMIT_SUFFIX then
      if HasInt(given, ROW_LIMIT) then Some(Slice(full, 0, given[ROW_LIMIT].i)) else None
    else if text == base + RANGE_SUFFIX then
      if HasInt(given, ROW_START) && HasInt(given, ROW_END)
      then Some(Slice(full, given[ROW_START].i - 1, given[ROW_END].i)) else None
    else None
  }

  /** The row parameters reach the database under their own names. */
  lemma RowParametersAreGiven(
    text: string, params: map<string, Value>, base: string, limit: int, offset: int)
    requires BindNames(text) == BindNames(base) + RowNames(offset)
    requires params == if offset != 0 then params[ROW_START := Int(offset + 1)][ROW_END := Int(offset + limit)]
                       else params[ROW_LIMIT := Int(limit)]
    ensures var given := ExecutionBindings(text, params);
            if offset != 0 then
              && HasInt(given, ROW_START) && given[ROW_START].i == offset + 1
              && HasInt(given, ROW_END) && given[ROW_END].i == offset + limit
            else HasInt(given, ROW_LIMIT) && given[ROW_LIMIT].i == limit
  {
    assert forall n | n in RowNames(offset) :: n in BindNames(text) && n in params;
    if offset != 0 {
      assert ROW_START != ROW_END by {
        assert |ROW_START| != |ROW_END|;
      }
      assert RowNames(offset)[0] == ROW_START && RowNames(offset)[1] == ROW_END;
    } else {
      assert RowNames(offset)[0] == ROW_LIMIT;
    }
  }

  /** The database answers the rewritten query with exactly the rows of the window. */
  lemma RowClauseIsWindow<R>(
    base: string, full: seq<R>, text: string, given: map<string, Value>, limit: int, offset: int)
    requires text == base + RowSuffix(offset) && offset >= 0 && !IsClosed(base)
    requires if offset != 0 then
               && HasInt(given, ROW_START) && given[ROW_START].i == offset + 1
               && HasInt(given, ROW_END) && given[ROW_END].i == offset + limit
             else HasInt(given, ROW_LIMIT) && given[ROW_LIMIT].i == limit
    ensures DatabaseRows(base, full, text, given) == Some(Slice(full, offset, offset + limit))
  {
    RStripKeeps(base, RowSuffix(offset));
    assert |RowSuffix(offset)| == if offset != 0 then |RANGE_SUFFIX| else |LIMIT_SUFFIX|;
    assert |LIMIT_SUFFIX| < |RANGE_SUFFIX|;
    assert |text| == |base| + |RowSuffix(offset)|;
  }

  lemma WindowOfText<R>(
    text: string, binds: map<string, Value>, sql: string, base: string, full: seq<R>, limit: int, offset: int)
    requires Skeleton(text) == base + RowSuffix(offset) && offset >= 0 && !IsClosed(base)
    requires BindNames(text) == BindNames(sql) + RowNames(offset)
    requires binds == if offset != 0 then binds[ROW_START := Int(offset + 1)][ROW_END := Int(offset + limit)]
                      else binds[ROW_LIMIT := Int(limit)]
    ensures DatabaseRows(base, full, Skeleton(text), ExecutionBindings(text, binds))
            == Some(Slice(full, offset, offset + limit))
  {
    RowParametersAreGiven(text, binds, sql, limit, offset);
    RowClauseIsWindow(base, full, Skeleton(text), ExecutionBindings(text, binds), limit, offset);
  }

  function Min(a: int, b: int): int {
    if a < b then a else b
  }

  // ----- the ordering

  lemma {:induction false} SplitWithout(s: string)
    requires ',' !in s
    ensures SplitAt(s, ',') == [s]
  {
    if s != "" {
      assert s[0] in s;
      SplitWithout(s[1..]);
      assert [s[0]] + s[1..] == s;
    }
  }

  /** A part without a comma, and the rest after one. */
  lemma {:induction false} SplitFirst(s: string, rest: string)
    requires ',' !in s
    ensures SplitAt(s + ("," + rest), ',') == [s] + SplitAt(rest, ',')
  {
    if s == "" {
      assert "" + ("," + rest) == "," + rest && ("," + rest)[1..] == rest;
    } else {
      assert s[0] in s && (s + ("," + rest))[1..] == s[1..] + ("," + rest);
      SplitFirst(s[1..], rest);
      assert [s[0]] + s[1..] == s;
      assert ([s[1..]] + SplitAt(rest, ','))[1..] == SplitAt(rest, ',');
    }
  }

  lemma {:induction false} LeadingSpace(s: string, parts: seq<string>, rest: string)
    requires SplitAt(rest, ',') == [s] + parts
    ensures SplitAt(" " + rest, ',') == [" " + s] + parts
  {
    assert (" " + rest)[1..] == rest;
  }

  lemma StripLeading(s: string)
    ensures Strip(" " + s) == Strip(s)
  {
    LStripSkips(" ", s);
  }

  /** Splitting a list of items again gives the items. */
  lemma {:induction false} JoinSplits(items: seq<string>)
    requires items != [] && forall item | item in items :: ',' !in item && Tight(item)
    ensures StripAll(SplitAt(Join(items, ", "), ',')) == items
    decreases |items|
  {
    var item, rest := items[0], items[1..];
    assert item in items && items == [item] + rest;
    if rest == [] {
      TightIsStripped(item);
      SplitWithout(item);
    } else {
      assert forall x | x in rest :: x in items;
      JoinSplits(rest);
      JoinMore(item, rest);
      OneMoreItem(item, Join(rest, ", "));
    }
  }

  lemma {:induction false} JoinMore(item: string, rest: seq<string>)
    requires rest != []
    ensures Join([item] + rest, ", ") == item + ("," + (" " + Join(rest, ", ")))
  {
    assert ([item] + rest)[1..] == rest;
    assert item + ", " + Join(rest, ", ") == item + ("," + (" " + Join(rest, ", ")));
  }

  lemma {:induction false} OneMoreItem(item: string, tail: string)
    requires ',' !in item && Tight(item)
    ensures StripAll(SplitAt(item + ("," + (" " + tail)), ',')) == [item] + StripAll(SplitAt(tail, ','))
  {
    var parts := SplitAt(tail, ',');
    var first, others := parts[0], parts[1..];
    assert parts == [first] + others;
    SplitFirst(item, " " + tail);
    LeadingSpace(first, others, tail);
    StripLeading(first);
    TightIsStripped(item);
    StripAllFirst(item, [" " + first] + others);
    StripAllFirst(" " + first, others);
    StripAllFirst(first, others);
  }

  lemma {:induction false} StripAllFirst(first: string, rest: seq<string>)
    ensures StripAll([first] + rest) == [Strip(first)] + StripAll(rest)
  {
    assert ([first] + rest)[1..] == rest;
  }

  lemma TightIsStripped(s: string)
    requires Tight(s)
    ensures Strip(s) == s
  {
    StripFindsCore("", s, "");
    assert "" + s + "" == s;
  }

  lemma {:induction false} PartsHaveNoComma(s: string)
    ensures forall part | part in SplitAt(s, ',') :: ',' !in part
  {
    if s != "" {
      PartsHaveNoComma(s[1..]);
      assert SplitAt(s[1..], ',')[0] in SplitAt(s[1..], ',');
    }
  }

  lemma StrippedHasNoComma(s: string)
    requires ',' !in s
    ensures ',' !in Strip(s)
  {
    var lead, trail := Margins(s);
    assert forall c | c in Strip(s) :: c in s;
  }

  /** An accepted ordering asks the database for exactly the items of the request, in their order. */
  lemma OrderingAsAsked(runtime: Runtime, sql: string, orderBy: Option<Value>) returns (list: string)
    requires Truthy(runtime, orderBy) && Ordered(runtime, sql, orderBy).Ok?
    ensures Ordered(runtime, sql, orderBy).value == RStrip(sql) + (" ORDER BY " + list)
    ensures StripAll(SplitAt(list, ',')) == StripAll(SplitAt(runtime.text(orderBy.value), ','))
  {
    var parts := SplitAt(runtime.text(orderBy.value), ',');
    var items := StripAll(parts);
    list := Join(items, ", ");
    PartsHaveNoComma(runtime.text(orderBy.value));
    forall item | item in items ensures ',' !in item && Tight(item) {
      var k :| 0 <= k < |items| && items[k] == item;
      assert parts[k] in parts;
      StrippedHasNoComma(parts[k]);
    }
    JoinSplits(items);
  }
}

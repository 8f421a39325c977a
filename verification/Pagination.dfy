/** Ordering and pagination options, added to the text of a query. */
module Pagination {
  import opened Wrappers
  import opened Text
  import opened Lexer
  import opened LexerTheorems
  import opened Scanners
  import opened Splitting
  import opened Nesting
  import opened Parameters

  datatype OptionError = BadOrderBy | AlreadyOrdered | BadWindow

  const ROW_LIMIT := "__f2a_row_limit"
  const ROW_START := "__f2a_row_start"
  const ROW_END := "__f2a_row_end"
  const LIMIT_SUFFIX := " ROWS " + (":" + ROW_LIMIT)
  const RANGE_SUFFIX := (" ROWS " + (":" + ROW_START)) + (" TO " + (":" + ROW_END))

  const WINDOW_WORDS := ["ROWS", "FIRST", "SKIP", "OFFSET", "FETCH"]

  // ----- ORDER BY items

  function SplitAt(s: string, separator: char): (parts: seq<string>)
    ensures parts != []
  {
    if s == "" then [""]
    else
      var rest := SplitAt(s[1..], separator);
      if s[0] == separator then [""] + rest else [[s[0]] + rest[0]] + rest[1..]
  }

  function StripAll(parts: seq<string>): (r: seq<string>)
    ensures |r| == |parts|
    ensures forall k :: 0 <= k < |r| ==> r[k] == Strip(parts[k])
  {
    if parts == [] then [] else [Strip(parts[0])] + StripAll(parts[1..])
  }

  predicate IsColumnChar(c: char) {
    IsWord(c) || c == '$'
  }

  /** How many characters of `[A-Za-z_][A-Za-z0-9_$]*` the text starts with; zero if none. */
  function ColumnLength(s: string): (k: nat)
    ensures k <= |s|
    ensures forall c | c in s[..k] :: IsColumnChar(c)
  {
    if s == "" || !IsNameStart(s[0]) then 0 else 1 + ColumnRun(s[1..])
  }

  function ColumnRun(s: string): (k: nat)
    ensures k <= |s|
    ensures forall c | c in s[..k] :: IsColumnChar(c)
  {
    if s != "" && IsColumnChar(s[0]) then 1 + ColumnRun(s[1..]) else 0
  }

  /** Nothing, or whitespace and a direction. */
  predicate IsDirection(s: string) {
    s == "" || (IsSpace(s[0]) && Upper(LStrip(s)) in ["ASC", "DESC"])
  }

  /** A column, possibly qualified, with an optional direction. */
  predicate IsOrderItem(s: string) {
    var k := ColumnLength(s);
    k > 0 &&
    if k < |s| && s[k] == '.' then
      var j := ColumnLength(s[k + 1..]);
      j > 0 && IsDirection(s[k + 1..][j..])
    else IsDirection(s[k..])
  }

  predicate HasOrderBy(words: seq<string>) {
    exists k :: 0 <= k < |words| - 1 && words[k] == "ORDER" && words[k + 1] == "BY"
  }

  // ----- the rewrite

  predicate Truthy(runtime: Runtime, v: Option<Value>) {
    match v
    case None => false
    case Some(Null) => false
    case Some(Bool(b)) => b
    case Some(Int(i)) => i != 0
    case Some(Str(s)) => s != ""
    case Some(Other(_, _)) => runtime.truthy(v.value)
  }

  function OrderSuffix(items: seq<string>): string {
    " ORDER BY " + Join(items, ", ")
  }

  function Ordered(runtime: Runtime, sql: string, orderBy: Option<Value>): Result<string, OptionError> {
    if !Truthy(runtime, orderBy) then Ok(sql)
    else
      var items := StripAll(SplitAt(runtime.text(orderBy.value), ','));
      if exists item | item in items :: !IsOrderItem(item) then Err(BadOrderBy)
      else if HasOrderBy(TopWords(0, "", Skeleton(sql))) then Err(AlreadyOrdered)
      else Ok(RStrip(sql) + OrderSuffix(items))
  }

  /** The row limit and offset asked for. */
  function RowWindow(runtime: Runtime, options: Options, maxRows: int): Result<(int, int), OptionError> {
    var limit := if options.limit in [None, Some(Null), Some(Str(""))] then Some(maxRows)
                 else runtime.toInt(options.limit.value);
    var offset := if !Truthy(runtime, options.offset) then Some(0) else runtime.toInt(options.offset.value);
    if limit.None? || offset.None? then Err(BadWindow)
    else
      var rows := if limit.value < maxRows then limit.value else maxRows;
      if rows <= 0 || offset.value < 0 then Err(BadWindow) else Ok((rows, offset.value))
  }

  predicate NamesWindow(words: seq<string>) {
    exists w | w in words :: w in WINDOW_WORDS
  }

  /** The words outside parentheses name a window, whatever they stand for. */
  predicate HasWindow(sql: string) {
    NamesWindow(TopWords(0, "", Skeleton(sql)))
  }

  function Paginate(sql: string, params: map<string, Value>, limit: int, offset: int): (string, map<string, Value>) {
    if HasWindow(sql) then (sql, params)
    else if offset != 0 then
      (RStrip(sql) + RANGE_SUFFIX, params[ROW_START := Int(offset + 1)][ROW_END := Int(offset + limit)])
    else (RStrip(sql) + LIMIT_SUFFIX, params[ROW_LIMIT := Int(limit)])
  }

  function ApplyOptions(
    runtime: Runtime, sql: string, params: map<string, Value>, options: Options, maxRows: int
  ): Result<(string, map<string, Value>), OptionError>
  {
    match Ordered(runtime, sql, options.orderBy)
    case Err(e) => Err(e)
    case Ok(ordered) =>
      match RowWindow(runtime, options, maxRows)
      case Err(e) => Err(e)
      case Ok((limit, offset)) => Ok(Paginate(ordered, params, limit, offset))
  }

  // ----- appending text

  /** The skeleton of the text after a prefix that leaves the lexer in state `m`. */
  function SkeletonFrom(m: Mode, s: string): string {
    Source(Scrub(Uncomment(Lex(true, m, s))))
  }

  lemma {:induction false} SkeletonAppend(a: string, b: string)
    requires !Straddles(a, b)
    ensures Skeleton(a + b) == Skeleton(a) + SkeletonFrom(EndMode(true, Normal, a), b)
  {
    var x, y := Lex(true, Normal, a), Lex(true, EndMode(true, Normal, a), b);
    LexAppend(true, Normal, a, b);
    UncommentAppend(x, y);
    ScrubAppend(Uncomment(x), Uncomment(y));
    SourceAppend(Scrub(Uncomment(x)), Scrub(Uncomment(y)));
  }

  /** Text without quotes, semicolons and the characters that open a comment. */
  predicate IsPlain(s: string) {
    forall k :: 0 <= k < |s| ==> IsPlainChar(s[k])
  }

  predicate IsPlainChar(c: char) {
    c != QUOTE && c != '-' && c != '/' && c != ';'
  }

  lemma SkeletonUnfold(m: Mode, s: string)
    requires s != ""
    ensures var t := Read(true, m, s);
            SkeletonFrom(m, s) == Source(Scrub(UncommentItem(t.item))) + SkeletonFrom(t.mode, s[t.width..])
  {
    var t := Read(true, m, s);
    var rest := Uncomment(Lex(true, t.mode, s[t.width..]));
    Unfold(true, m, s);
    ScrubAppend(UncommentItem(t.item), rest);
    SourceAppend(Scrub(UncommentItem(t.item)), Scrub(rest));
  }

  /** Plain text is its own skeleton after code. */
  lemma {:induction false} PlainIsCode(s: string)
    requires IsPlain(s)
    ensures SkeletonFrom(Normal, s) == s && EndMode(true, Normal, s) == Normal
    decreases |s|
  {
    if s != "" {
      assert Read(true, Normal, s) == Step(Code(s[0]), 1, Normal);
      SkeletonUnfold(Normal, s);
      PlainIsCode(s[1..]);
    }
  }

  /** After an open literal or comment it loses at least its first character. */
  lemma {:induction false} PlainIsSwallowed(m: Mode, s: string)
    requires IsPlain(s)
    ensures |SkeletonFrom(m, s)| <= |s|
    ensures s != "" && m != Normal && s[0] == ' ' ==> |SkeletonFrom(m, s)| < |s|
    decreases |s|
  {
    if s != "" {
      var t := Read(true, m, s);
      SkeletonUnfold(m, s);
      PlainIsSwallowed(t.mode, s[t.width..]);
    }
  }

  /** A plain suffix that starts with a space becomes part of the statement exactly when the text
      before it ends as code: not inside a literal, and not inside a comment. */
  lemma {:induction false} SuffixReachesStatement(a: string, suffix: string)
    requires suffix != "" && suffix[0] == ' ' && IsPlain(suffix)
    ensures Skeleton(a + suffix) == Skeleton(a) + suffix <==> EndMode(true, Normal, a) == Normal
  {
    SkeletonAppend(a, suffix);
    PlainIsCode(suffix);
    PlainIsSwallowed(EndMode(true, Normal, a), suffix);
  }

  // ----- the appended ordering is quiet

  /** Plain text that also holds no bind and no parenthesis. */
  predicate IsQuiet(s: string) {
    forall k :: 0 <= k < |s| ==> IsQuietChar(s[k])
  }

  predicate IsQuietChar(c: char) {
    IsPlainChar(c) && c != ':' && c != '(' && c != ')'
  }

  lemma ColumnIsQuiet(s: string)
    ensures IsQuiet(s[..ColumnLength(s)])
  {
    var k := ColumnLength(s);
    assert forall i :: 0 <= i < k ==> s[..k][i] in s[..k];
  }

  lemma SpaceIsQuiet(s: string)
    requires AllSpace(s)
    ensures IsQuiet(s)
  {
    forall k | 0 <= k < |s| ensures IsQuietChar(s[k]) {
      assert IsSpace(s[k]);
    }
  }

  lemma WordIsQuiet(word: string)
    requires forall c | c in Upper(word) :: 'A' <= c <= 'Z'
    ensures IsQuiet(word)
  {
    forall k | 0 <= k < |word| ensures IsQuietChar(word[k]) {
      assert UpperChar(word[k]) == Upper(word)[k] && Upper(word)[k] in Upper(word);
    }
  }

  lemma DirectionIsQuiet(s: string)
    requires IsDirection(s)
    ensures IsQuiet(s)
  {
    if s != "" {
      var k := Indent(s);
      SpaceIsQuiet(s[..k]);
      WordIsQuiet(s[k..]);
      QuietAppend(s[..k], s[k..]);
      assert s == s[..k] + s[k..];
    }
  }

  lemma QuietAppend(a: string, b: string)
    requires IsQuiet(a) && IsQuiet(b)
    ensures IsQuiet(a + b)
  {
  }

  lemma OrderItemIsQuiet(s: string)
    requires IsOrderItem(s)
    ensures IsQuiet(s)
  {
    var k := ColumnLength(s);
    ColumnIsQuiet(s);
    if k < |s| && s[k] == '.' {
      QualifiedIsQuiet(s, k);
    } else {
      DirectionIsQuiet(s[k..]);
      QuietAppend(s[..k], s[k..]);
      assert s == s[..k] + s[k..];
    }
  }

  lemma QuietAround(s: string, k: nat)
    requires k < |s| && s[k] == '.' && IsQuiet(s[..k]) && IsQuiet(s[k + 1..])
    ensures IsQuiet(s)
  {
    forall i | 0 <= i < |s| ensures IsQuietChar(s[i]) {
      assert i < k ==> s[..k][i] == s[i];
      assert i > k ==> s[k + 1..][i - k - 1] == s[i];
    }
  }

  lemma QualifiedIsQuiet(s: string, k: nat)
    requires k < |s| && s[k] == '.' && IsQuiet(s[..k])
    requires IsDirection(s[k + 1..][ColumnLength(s[k + 1..])..])
    ensures IsQuiet(s)
  {
    var rest := s[k + 1..];
    var j := ColumnLength(rest);
    ColumnIsQuiet(rest);
    DirectionIsQuiet(rest[j..]);
    QuietAppend(rest[..j], rest[j..]);
    assert rest == rest[..j] + rest[j..];
    QuietAround(s, k);
  }

  lemma {:induction false} JoinIsQuiet(items: seq<string>)
    requires forall item | item in items :: IsOrderItem(item) && Tight(item)
    ensures IsQuiet(Join(items, ", "))
    ensures items != [] ==> Join(items, ", ") != "" && !IsSpace(Join(items, ", ")[|Join(items, ", ")| - 1])
  {
    if items != [] {
      assert items[0] in items && forall item | item in items[1..] :: item in items;
      OrderItemIsQuiet(items[0]);
      JoinIsQuiet(items[1..]);
      if |items| > 1 {
        OneMoreIsQuiet(items[0], Join(items[1..], ", "));
      }
    }
  }

  lemma OneMoreIsQuiet(item: string, rest: string)
    requires IsQuiet(item) && IsQuiet(rest) && rest != ""
    ensures var s := item + ", " + rest; IsQuiet(s) && s != "" && s[|s| - 1] == rest[|rest| - 1]
  {
    assert IsQuiet(", ");
    QuietAppend(item, ", ");
    QuietAppend(item + ", ", rest);
  }

  /** The appended ordering is quiet text that starts with a space and ends with none. */
  lemma OrderSuffixIsQuiet(items: seq<string>)
    requires items != [] && forall item | item in items :: IsOrderItem(item) && Tight(item)
    ensures var suffix := OrderSuffix(items);
            suffix[0] == ' ' && IsQuiet(suffix) && !IsSpace(suffix[|suffix| - 1])
  {
    JoinIsQuiet(items);
  }

  /** Either the text is left alone, or a quiet suffix is added to it. */
  lemma OrderedAddsSuffix(
    runtime: Runtime, sql: string, orderBy: Option<Value>) returns (suffix: string)
    requires Ordered(runtime, sql, orderBy).Ok?
    ensures RStrip(Ordered(runtime, sql, orderBy).value) == RStrip(sql) + suffix
    ensures suffix != "" ==> suffix[0] == ' ' && IsQuiet(suffix)
  {
    if Truthy(runtime, orderBy) {
      var items := StripAll(SplitAt(runtime.text(orderBy.value), ','));
      OrderSuffixIsQuiet(items);
      suffix := OrderSuffix(items);
      RStripKeeps(RStrip(sql), suffix);
    } else {
      suffix := "";
      assert RStrip(sql) + suffix == RStrip(sql);
    }
  }

  lemma RStripKeeps(a: string, b: string)
    requires b != "" && !IsSpace(b[|b| - 1])
    ensures RStrip(a + b) == a + b
  {
  }
}

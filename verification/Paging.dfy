/** Paging from end to end: the options of a request, the rewritten query, the answer of the database
    and the fetch loop. */
module Paging {
  import opened Wrappers
  import opened Text
  import opened Lexer
  import opened Parameters
  import opened Pagination
  import opened PaginationTheorems
  import opened RewriteTheorems
  import opened QueryRun
  import opened Validation

  // ----- what a request asks for

  datatype Asked = Nothing | Number(i: int) | Garbage

  function AsNumber(runtime: Runtime, v: Value): Asked {
    match runtime.toInt(v)
    case None => Garbage
    case Some(i) => Number(i)
  }

  /** Neither null nor an empty text asks for a limit. */
  function LimitAsked(runtime: Runtime, v: Option<Value>): Asked {
    if v.None? || v.value == Null || v.value == Str("") then Nothing else AsNumber(runtime, v.value)
  }

  /** No false value asks for an offset: null, the empty text, zero, and what the runtime takes for
      false. */
  function OffsetAsked(runtime: Runtime, v: Option<Value>): Asked {
    if v.None? || v.value in {Null, Str(""), Int(0), Bool(false)} then Nothing
    else if v.value.Other? && !runtime.truthy(v.value) then Nothing
    else AsNumber(runtime, v.value)
  }

  /** For options of any type, texts of a query string included: the window has the limit asked for,
      cut at the maximum, or the maximum; and it starts at the offset asked for, or at the first row.
      It is refused exactly when one of them is no number, a limit is not positive or an offset is
      negative. */
  lemma WindowAsAsked(runtime: Runtime, options: Options, maxRows: int, limit: int, offset: int)
    ensures var size, first := LimitAsked(runtime, options.limit), OffsetAsked(runtime, options.offset);
            RowWindow(runtime, options, maxRows) == Ok((limit, offset))
            <==> && 0 < limit <= maxRows && 0 <= offset
                 && (size.Nothing? ==> limit == maxRows) && (first.Nothing? ==> offset == 0)
                 && !size.Garbage? && (size.Number? ==> limit == Min(size.i, maxRows))
                 && !first.Garbage? && (first.Number? ==> offset == first.i)
  {
    NoLimit(options.limit);
  }

  lemma NoLimit(v: Option<Value>)
    ensures v in [None, Some(Null), Some(Str(""))] <==> v.None? || v.value == Null || v.value == Str("")
  {
    var none := [None, Some(Null), Some(Str(""))];
    assert none[0] == None && none[1] == Some(Null) && none[2] == Some(Str(""));
  }

  // ----- one page

  /** What is paged: the trimmed query with its ordering. */
  function PagedText(runtime: Runtime, sql: string, orderBy: Option<Value>): string {
    match Ordered(runtime, sql, orderBy)
    case Ok(text) => RStrip(text)
    case Err(_) => ""
  }

  /** The window of the options reaches the database. */
  predicate Windowed(runtime: Runtime, sql: string, orderBy: Option<Value>) {
    && Ordered(runtime, sql, orderBy).Ok? && !HasWindow(Ordered(runtime, sql, orderBy).value)
    && EndMode(true, Normal, PagedText(runtime, sql, orderBy)) == Normal
  }

  /** A GET request with its options, the answer of the database and what the caller receives. */
  datatype Page<R> = Page(options: Options, answer: Answer<R>, output: Output<R>)

  /** The request went through, and the database, whose answer to the query itself is `full`, read
      the row clause as `DatabaseRows` does. */
  ghost predicate Served<R>(
    runtime: Runtime, sql: string, params: map<string, Value>, maxRows: nat, full: seq<R>, page: Page<R>)
  {
    match Prepared(runtime, sql, params, "GET", page.options, maxRows)
    case Err(_) => false
    case Ok((text, given, statementType)) =>
      && page.answer.Rows?
      && Answered(PagedText(runtime, sql, page.options.orderBy), full, text, given, page.answer.rows)
      && Delivers(page.output, page.answer, "GET", statementType, maxRows)
  }

  ghost predicate Answered<R>(base: string, full: seq<R>, text: string, given: map<string, Value>, rows: seq<R>) {
    DatabaseRows(Skeleton(base), full, Skeleton(text), given) == Some(rows)
  }

  lemma SameUpToSpace<R>(
    base: string, full: seq<R>, text: string, given: map<string, Value>, rows: seq<R>)
    requires Answered(base, full, text, given, rows)
    requires RStrip(Skeleton(text)) == RStrip(Skeleton(base))
    ensures rows == full
  {
  }

  /** The rewritten text is the paged text with the row clause, or the ordered text as it was. */
  lemma PreparedText(
    runtime: Runtime, sql: string, params: map<string, Value>, options: Options, maxRows: nat
  ) returns (text: string, binds: map<string, Value>)
    requires Prepared(runtime, sql, params, "GET", options, maxRows).Ok?
    ensures Prepared(runtime, sql, params, "GET", options, maxRows).value.0 == text
    ensures Prepared(runtime, sql, params, "GET", options, maxRows).value.1 == ExecutionBindings(text, binds)
    ensures Ordered(runtime, sql, options.orderBy).Ok? && RowWindow(runtime, options, maxRows).Ok?
    ensures (text, binds) == Paginate(Ordered(runtime, sql, options.orderBy).value, params,
                                      RowWindow(runtime, options, maxRows).value.0,
                                      RowWindow(runtime, options, maxRows).value.1)
  {
    var rewritten := ApplyOptions(runtime, sql, params, options, maxRows);
    text, binds := rewritten.value.0, rewritten.value.1;
  }

  lemma RowsRefused<R>(
    base: string, full: seq<R>, text: string, given: map<string, Value>, offset: int)
    requires text == base + RowSuffix(offset) && IsClosed(base)
    ensures DatabaseRows(base, full, text, given) == None
  {
    RStripKeeps(base, RowSuffix(offset));
    RowSuffixStarts(offset);
  }

  lemma KeptText<R>(
    ordered: string, full: seq<R>, given: map<string, Value>, rows: seq<R>)
    requires Answered(RStrip(ordered), full, ordered, given, rows)
    ensures rows == full
  {
    var space := RStripKeepsSkeleton(ordered);
    SameUpToSpace(RStrip(ordered), full, ordered, given, rows);
  }

  lemma {:induction false} LostRows<R>(
    base: string, full: seq<R>, offset: int, given: map<string, Value>, rows: seq<R>)
    requires EndMode(true, Normal, base) != Normal
    requires Answered(base, full, base + RowSuffix(offset), given, rows)
    ensures rows == full
  {
    RowsReachOrVanish(base, offset);
    assert Skeleton(base) + "" == Skeleton(base);
    SameUpToSpace(base, full, base + RowSuffix(offset), given, rows);
  }

  lemma {:induction false} WindowRows<R>(
    base: string, full: seq<R>, limit: int, offset: int, binds: map<string, Value>, rows: seq<R>)
    requires EndMode(true, Normal, base) == Normal && offset >= 0
    requires binds == if offset != 0 then binds[ROW_START := Int(offset + 1)][ROW_END := Int(offset + limit)]
                      else binds[ROW_LIMIT := Int(limit)]
    requires var text := base + RowSuffix(offset); Answered(base, full, text, ExecutionBindings(text, binds), rows)
    ensures !IsClosed(Skeleton(base)) && rows == Slice(full, offset, offset + limit)
  {
    var text := base + RowSuffix(offset);
    RowsExtend(base, offset);
    if IsClosed(Skeleton(base)) {
      RowsRefused(Skeleton(base), full, Skeleton(text), ExecutionBindings(text, binds), offset);
      assert false;
    } else {
      WindowOfText(text, binds, base, Skeleton(base), full, limit, offset);
    }
  }

  /** The rows of a paginated text. */
  lemma PaginatedRows<R>(
    ordered: string, params: map<string, Value>, limit: int, offset: int, full: seq<R>,
    text: string, binds: map<string, Value>, rows: seq<R>)
    requires offset >= 0 && (text, binds) == Paginate(ordered, params, limit, offset)
    requires Answered(RStrip(ordered), full, text, ExecutionBindings(text, binds), rows)
    ensures var windowed := !HasWindow(ordered) && EndMode(true, Normal, RStrip(ordered)) == Normal;
            && rows == (if windowed then Slice(full, offset, offset + limit) else full)
            && (windowed ==> !IsClosed(Skeleton(RStrip(ordered))))
  {
    if HasWindow(ordered) {
      KeptText(ordered, full, ExecutionBindings(text, binds), rows);
    } else {
      PaginatedText(ordered, params, limit, offset, text, binds);
      if EndMode(true, Normal, RStrip(ordered)) == Normal {
        WindowRows(RStrip(ordered), full, limit, offset, binds, rows);
      } else {
        LostRows(RStrip(ordered), full, offset, ExecutionBindings(text, binds), rows);
      }
    }
  }

  lemma PaginatedText(
    ordered: string, params: map<string, Value>, limit: int, offset: int, text: string, binds: map<string, Value>)
    requires !HasWindow(ordered) && (text, binds) == Paginate(ordered, params, limit, offset)
    ensures text == RStrip(ordered) + RowSuffix(offset)
    ensures binds == if offset != 0 then binds[ROW_START := Int(offset + 1)][ROW_END := Int(offset + limit)]
                     else binds[ROW_LIMIT := Int(limit)]
  {
    assert ROW_START != ROW_END by {
      assert |ROW_START| != |ROW_END|;
    }
  }

  lemma SliceFits<R>(full: seq<R>, offset: int, limit: int, maxRows: nat)
    requires 0 < limit <= maxRows && offset >= 0
    ensures var page := Slice(full, offset, offset + limit); page[..Min(maxRows, |page|)] == page
  {
  }

  /** Main result on one page. The caller of a request that goes through receives exactly the rows of
      the window it asked for, whatever the chunk size, if and only if the window reaches the
      database; otherwise the first rows up to the maximum, whatever it asked for. A query that a
      semicolon ends is never served with a window. */
  lemma PageIsWindow<R>(
    runtime: Runtime, sql: string, params: map<string, Value>, maxRows: nat, full: seq<R>, page: Page<R>
  ) returns (limit: int, offset: int)
    requires Served(runtime, sql, params, maxRows, full, page)
    ensures RowWindow(runtime, page.options, maxRows) == Ok((limit, offset)) && 0 < limit <= maxRows && 0 <= offset
    ensures Windowed(runtime, sql, page.options.orderBy)
            ==> && page.output.rows == Slice(full, offset, offset + limit)
                && !IsClosed(Skeleton(PagedText(runtime, sql, page.options.orderBy)))
    ensures !Windowed(runtime, sql, page.options.orderBy) ==> page.output.rows == full[..Min(maxRows, |full|)]
  {
    var text, binds := PreparedText(runtime, sql, params, page.options, maxRows);
    limit, offset := RowWindow(runtime, page.options, maxRows).value.0, RowWindow(runtime, page.options, maxRows).value.1;
    PaginatedRows(Ordered(runtime, sql, page.options.orderBy).value, params, limit, offset, full, text, binds,
                  page.answer.rows);
    SliceFits(full, offset, limit, maxRows);
  }

  /** The rows are those of the window of the options. */
  ghost predicate IsWindow<R>(runtime: Runtime, options: Options, maxRows: nat, full: seq<R>, rows: seq<R>) {
    match RowWindow(runtime, options, maxRows)
    case Err(_) => false
    case Ok((limit, offset)) => rows == Slice(full, offset, offset + limit)
  }

  lemma ServedWindow<R>(
    runtime: Runtime, sql: string, params: map<string, Value>, maxRows: nat, full: seq<R>, page: Page<R>)
    requires Served(runtime, sql, params, maxRows, full, page) && Windowed(runtime, sql, page.options.orderBy)
    ensures IsWindow(runtime, page.options, maxRows, full, page.output.rows)
  {
    var limit, offset := PageIsWindow(runtime, sql, params, maxRows, full, page);
    SliceIsWindow(runtime, page.options, maxRows, full, page.output.rows, limit, offset);
  }

  lemma SliceIsWindow<R>(
    runtime: Runtime, options: Options, maxRows: nat, full: seq<R>, rows: seq<R>, limit: int, offset: int)
    requires RowWindow(runtime, options, maxRows) == Ok((limit, offset)) && rows == Slice(full, offset, offset + limit)
    ensures IsWindow(runtime, options, maxRows, full, rows)
  {
  }

  /** The database answers what a request sends it, if it sends anything. */
  ghost predicate Answers<R>(
    runtime: Runtime, sql: string, params: map<string, Value>, options: Options, maxRows: nat, full: seq<R>,
    answer: Answer<R>)
  {
    match Prepared(runtime, sql, params, "GET", options, maxRows)
    case Err(_) => true
    case Ok((text, given, _)) =>
      answer.Rows? && Answered(PagedText(runtime, sql, options.orderBy), full, text, given, answer.rows)
  }

  /** A GET request, run with any chunk size and any cancellation checks. When it returns, the page is
      served, and its rows are those of the window. */
  method ReadPage<R>(
    runtime: Runtime, sql: string, params: map<string, Value>, options: Options, maxRows: nat, chunkSize: nat,
    ghost full: seq<R>, answer: Answer<R>, canceled: nat -> bool
  ) returns (r: Result<Output<R>, Failure>, trace: seq<Action>)
    requires chunkSize > 0
    requires Answers(runtime, sql, params, options, maxRows, full, answer)
    ensures r.Ok? ==> Served(runtime, sql, params, maxRows, full, Page(options, answer, r.value))
    ensures r.Ok? && Windowed(runtime, sql, options.orderBy)
            ==> IsWindow(runtime, options, maxRows, full, r.value.rows)
    ensures Commit !in trace
  {
    r, trace := ExecuteQuery(runtime, sql, params, "GET", options, maxRows, chunkSize, false, answer, false, canceled);
    if r.Ok? && Windowed(runtime, sql, options.orderBy) {
      ServedWindow(runtime, sql, params, maxRows, full, Page(options, answer, r.value));
    }
  }

  // ----- consecutive pages

  /** The options ask for `size` rows from the row `first` on, counted from zero. */
  predicate AsksForRows(runtime: Runtime, options: Options, size: nat, first: nat) {
    && LimitAsked(runtime, options.limit) == Number(size)
    && OffsetAsked(runtime, options.offset) in {Number(first), if first == 0 then Nothing else Number(first)}
  }

  lemma WindowForRows<R>(
    runtime: Runtime, options: Options, maxRows: nat, full: seq<R>, rows: seq<R>, size: nat, first: nat)
    requires size <= maxRows && AsksForRows(runtime, options, size, first)
    requires IsWindow(runtime, options, maxRows, full, rows)
    ensures size > 0 && rows == Slice(full, first, first + size)
  {
    var (limit, offset) := RowWindow(runtime, options, maxRows).value;
    WindowAsAsked(runtime, options, maxRows, limit, offset);
    assert limit == size && offset == first;
  }

  /** A request for these rows, served. */
  ghost predicate PageOf<R>(
    runtime: Runtime, sql: string, params: map<string, Value>, orderBy: Option<Value>, maxRows: nat, full: seq<R>,
    size: nat, first: nat, page: Page<R>)
  {
    && page.options.orderBy == orderBy && AsksForRows(runtime, page.options, size, first)
    && Served(runtime, sql, params, maxRows, full, page)
  }

  lemma PageAsAsked<R>(
    runtime: Runtime, sql: string, params: map<string, Value>, orderBy: Option<Value>, maxRows: nat, full: seq<R>,
    size: nat, first: nat, page: Page<R>)
    requires size <= maxRows && Windowed(runtime, sql, orderBy)
    requires PageOf(runtime, sql, params, orderBy, maxRows, full, size, first, page)
    ensures size > 0 && HoldsRows(full, size, first, page)
  {
    ServedWindow(runtime, sql, params, maxRows, full, page);
    WindowForRows(runtime, page.options, maxRows, full, page.output.rows, size, first);
  }

  function RowsBefore(k: nat, size: nat): nat {
    k * size
  }

  /** Requests for the pages zero, one, ... of one size, in one order. */
  ghost predicate Paged<R>(
    runtime: Runtime, sql: string, params: map<string, Value>, orderBy: Option<Value>, maxRows: nat, full: seq<R>,
    size: nat, pages: seq<Page<R>>)
  {
    && size <= maxRows && Windowed(runtime, sql, orderBy)
    && forall k :: 0 <= k < |pages| ==>
         PageOf(runtime, sql, params, orderBy, maxRows, full, size, RowsBefore(k, size), pages[k])
  }

  /** What the caller has received. */
  function Received<R>(pages: seq<Page<R>>): seq<R> {
    if pages == [] then [] else Received(pages[..|pages| - 1]) + pages[|pages| - 1].output.rows
  }

  lemma NextPage<R>(full: seq<R>, size: nat, k: nat)
    ensures full[..Clip(k * size, |full|)] + Slice(full, k * size, k * size + size)
            == full[..Clip((k + 1) * size, |full|)]
  {
    assert (k + 1) * size == k * size + size;
  }

  /** Every page holds the rows of its place. */
  ghost predicate InPlace<R>(full: seq<R>, size: nat, pages: seq<Page<R>>) {
    forall k :: 0 <= k < |pages| ==> HoldsRows(full, size, RowsBefore(k, size), pages[k])
  }

  ghost predicate HoldsRows<R>(full: seq<R>, size: nat, first: nat, page: Page<R>) {
    page.output.rows == Slice(full, first, first + size)
  }

  lemma {:induction false} PlacesConcatenate<R>(full: seq<R>, size: nat, pages: seq<Page<R>>)
    requires InPlace(full, size, pages)
    ensures Received(pages) == full[..Clip(|pages| * size, |full|)]
    decreases |pages|
  {
    if pages != [] {
      PlacesConcatenate(full, size, pages[..|pages| - 1]);
      NextPage(full, size, |pages| - 1);
    }
  }

  lemma PagesAreInPlace<R>(
    runtime: Runtime, sql: string, params: map<string, Value>, orderBy: Option<Value>, maxRows: nat, full: seq<R>,
    size: nat, pages: seq<Page<R>>)
    requires Paged(runtime, sql, params, orderBy, maxRows, full, size, pages)
    ensures InPlace(full, size, pages)
  {
    forall k | 0 <= k < |pages| ensures HoldsRows(full, size, RowsBefore(k, size), pages[k]) {
      PageAsAsked(runtime, sql, params, orderBy, maxRows, full, size, RowsBefore(k, size), pages[k]);
    }
  }

  /** Main result on paging. The outputs of consecutive requests, put together, are the start of the
      full answer, without gap or overlap. */
  lemma {:induction false} PagesConcatenate<R>(
    runtime: Runtime, sql: string, params: map<string, Value>, orderBy: Option<Value>, maxRows: nat, full: seq<R>,
    size: nat, pages: seq<Page<R>>)
    requires Paged(runtime, sql, params, orderBy, maxRows, full, size, pages)
    ensures Received(pages) == full[..Clip(|pages| * size, |full|)]
    ensures |pages| * size >= |full| ==> Received(pages) == full
  {
    PagesAreInPlace(runtime, sql, params, orderBy, maxRows, full, size, pages);
    PlacesConcatenate(full, size, pages);
  }

  lemma ShortSlice<R>(full: seq<R>, size: nat, k: nat)
    ensures |Slice(full, k * size, k * size + size)| < size <==> (k + 1) * size > |full|
  {
    assert (k + 1) * size == k * size + size;
  }

  lemma ShortPlaceIsLast<R>(full: seq<R>, size: nat, pages: seq<Page<R>>)
    requires pages != [] && InPlace(full, size, pages)
    ensures |pages[|pages| - 1].output.rows| < size <==> |pages| * size > |full|
    ensures |pages[|pages| - 1].output.rows| < size ==> Received(pages) == full
  {
    PlacesConcatenate(full, size, pages);
    ShortSlice(full, size, |pages| - 1);
  }

  /** A page that is not full is the last one: the caller has received everything. */
  lemma ShortPageIsLast<R>(
    runtime: Runtime, sql: string, params: map<string, Value>, orderBy: Option<Value>, maxRows: nat, full: seq<R>,
    size: nat, pages: seq<Page<R>>)
    requires pages != [] && Paged(runtime, sql, params, orderBy, maxRows, full, size, pages)
    ensures |pages[|pages| - 1].output.rows| < size <==> |pages| * size > |full|
    ensures |pages[|pages| - 1].output.rows| < size ==> Received(pages) == full
  {
    PagesAreInPlace(runtime, sql, params, orderBy, maxRows, full, size, pages);
    ShortPlaceIsLast(full, size, pages);
  }
}

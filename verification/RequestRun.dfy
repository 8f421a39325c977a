/** One request from its values to the database: binding, policy, rewrite, and the statement that is
    executed. */
module RequestRun {
  import opened Wrappers
  import opened Text
  import opened Lexer
  import opened Parameters
  import opened BindingTheorems
  import opened Pagination
  import opened PaginationTheorems
  import opened RewriteTheorems
  import opened QueryRun
  import Validation

  // ----- the binds of the rewritten text

  predicate NoColon(s: string) {
    forall k :: 0 <= k < |s| ==> s[k] != ':'
  }

  /** Quiet text adds no bind, and continues no name, whatever it follows. */
  lemma {:induction false} QuietTail(m: Mode, s: string)
    requires IsQuiet(s) && (m == Normal ==> s == "" || s[0] == ' ')
    ensures var r := SkeletonFrom(m, s); NoColon(r) && (r == "" || !IsWord(r[0]))
    decreases |s|
  {
    if s != "" {
      assert IsQuietChar(s[0]);
      if m == Normal {
        PlainIsCode(s);
        assert forall k :: 0 <= k < |s| ==> IsQuietChar(s[k]);
      } else if m == LineComment && s[0] == '\n' {
        LineBreakTail(s);
      } else {
        SwallowsOne(m, s);
        QuietTail(m, s[1..]);
      }
    }
  }

  lemma SwallowsOne(m: Mode, s: string)
    requires m != Normal && s != "" && IsQuietChar(s[0]) && !(m == LineComment && s[0] == '\n')
    requires |s| > 1 ==> s[1] != '/'
    ensures SkeletonFrom(m, s) == SkeletonFrom(m, s[1..])
  {
    SkeletonUnfold(m, s);
    assert "*/"[1] == '/';
    var t := Read(true, m, s);
    assert t.mode == m && t.width == 1 && Source(Scrub(UncommentItem(t.item))) == "";
    assert "" + SkeletonFrom(m, s[1..]) == SkeletonFrom(m, s[1..]);
  }

  lemma LineBreakTail(s: string)
    requires IsQuiet(s) && s != "" && s[0] == '\n'
    ensures SkeletonFrom(LineComment, s) == s
  {
    SkeletonUnfold(LineComment, s);
    var t := Read(true, LineComment, s);
    assert IsPlain(s[1..]);
    PlainIsCode(s[1..]);
    assert Source(Scrub(UncommentItem(t.item))) == "\n";
    assert s == "\n" + s[1..];
  }

  lemma TailAddsNoBind(k: string, tail: string)
    requires NoColon(tail) && (tail == "" || !IsWord(tail[0]))
    ensures Binds(' ', k + tail) == Binds(' ', k)
  {
    BindsAppend(' ', k, tail);
    NoColonNoBind(LastChar(' ', k), tail);
  }

  /** Ordering a query changes none of its binds, even when the ordering is lost in a comment. */
  lemma OrderedKeepsBinds(runtime: Runtime, sql: string, orderBy: Option<Value>)
    requires Ordered(runtime, sql, orderBy).Ok?
    ensures BindNames(Ordered(runtime, sql, orderBy).value) == BindNames(sql)
  {
    if Truthy(runtime, orderBy) {
      var c := OrderedText(runtime, sql, orderBy);
      var base := RStrip(sql);
      var m := EndMode(true, Normal, base);
      RStripKeepsBinds(sql);
      SkeletonAppend(base, c);
      QuietTail(m, c);
      TailAddsNoBind(Skeleton(base), SkeletonFrom(m, c));
    }
  }

  /** What the window adds to the parameters. */
  function WindowParams(params: map<string, Value>, limit: int, offset: int): map<string, Value> {
    if offset != 0 then params[ROW_START := Int(offset + 1)][ROW_END := Int(offset + limit)]
    else params[ROW_LIMIT := Int(limit)]
  }

  /** Pagination keeps the binds and adds those of its row clause, with their values, or changes
      nothing. */
  lemma PaginateBinds(ordered: string, params: map<string, Value>, limit: int, offset: int)
    ensures var (text, binds) := Paginate(ordered, params, limit, offset);
            || (BindNames(text) == BindNames(ordered) && binds == params)
            || ((BindNames(text) == BindNames(ordered) || BindNames(text) == BindNames(ordered) + RowNames(offset))
                && binds == WindowParams(params, limit, offset))
  {
    if !HasWindow(ordered) {
      var base := RStrip(ordered);
      RStripKeepsBinds(ordered);
      RowsReachOrVanish(base, offset);
      assert Skeleton(base) + "" == Skeleton(base);
      SuffixExtendsBinds(Skeleton(base), offset);
      assert Paginate(ordered, params, limit, offset) == (base + RowSuffix(offset), WindowParams(params, limit, offset));
    }
  }

  // ----- the row parameters are the service's own

  predicate IsRowName(n: string) {
    n == ROW_LIMIT || n == ROW_START || n == ROW_END
  }

  lemma PrefixIsReserved(n: string)
    requires "__f2a_" <= n
    ensures IsReserved(Upper(n)) && Upper(n) != n
  {
    assert Upper(n)[2] == UpperChar(n[2]) && n[2] == "__f2a_"[2] == 'f';
    assert Upper("__f2a_") == "__F2A_";
    forall k | 0 <= k < 6 ensures Upper(n)[k] == "__F2A_"[k] {
      assert n[k] == "__f2a_"[k];
      assert Upper("__f2a_")[k] == UpperChar("__f2a_"[k]);
    }
    assert Upper(n)[..6] == "__F2A_";
  }

  lemma RowNamesAreReserved(n: string)
    requires IsRowName(n)
    ensures IsReserved(Upper(n)) && Upper(n) != n
  {
    assert "__f2a_" <= ROW_LIMIT && "__f2a_" <= ROW_START && "__f2a_" <= ROW_END;
    PrefixIsReserved(n);
  }

  /** The parameters of a request, and perhaps those of the row clause. */
  predicate Widens(bound: map<string, Value>, binds: map<string, Value>) {
    && (forall m | m in bound :: Upper(m) == m && !IsReserved(m) && m in binds && binds[m] == bound[m])
    && (forall m | m in binds && m !in bound :: IsRowName(m))
  }

  lemma WindowWidens(bound: map<string, Value>, limit: int, offset: int)
    requires forall m | m in bound :: Upper(m) == m && !IsReserved(m)
    ensures Widens(bound, bound) && Widens(bound, WindowParams(bound, limit, offset))
  {
    RowNamesAreReserved(ROW_LIMIT);
    RowNamesAreReserved(ROW_START);
    RowNamesAreReserved(ROW_END);
  }

  /** Row parameters never stand in for a bind of the query. */
  lemma ResolvesAlike(bound: map<string, Value>, binds: map<string, Value>, n: string)
    requires Widens(bound, binds)
    ensures !IsReserved(Upper(n)) ==>
              && (Resolves(binds, n) <==> Resolves(bound, n))
              && (Resolves(bound, n) ==> Resolve(binds, n) == Resolve(bound, n))
    ensures IsReserved(Upper(n)) && Resolves(binds, n) ==> IsRowName(n)
  {
    UpperIsIdempotent(n);
    if n in binds && n !in bound {
      RowNamesAreReserved(n);
    }
    if Upper(n) in binds && Upper(n) !in bound {
      RowNamesAreReserved(Upper(n));
    }
  }

  // ----- what reaches the database

  /** A statement and its values, told from the request: every bind that is not reserved has the value
      its definition obtains; nothing else is given but the row parameters of the service, to a GET. */
  ghost predicate ToldByRequest(
    runtime: Runtime, defs: seq<Definition>, inputs: Inputs, httpMethod: string, text: string, given: map<string, Value>)
  {
    && (forall n | n in given :: n in BindNames(text))
    && (forall n | n in BindNames(text) && !IsReserved(Upper(n)) :: n in given)
    && (forall n | n in given :: if IsReserved(Upper(n)) then httpMethod == "GET" && IsRowName(n)
                                 else Decides(runtime, defs, inputs, n, given[n]))
  }

  lemma GivenIsTold(
    runtime: Runtime, defs: seq<Definition>, inputs: Inputs, bound: map<string, Value>, binds: map<string, Value>,
    httpMethod: string, text: string)
    requires BoundRight(runtime, defs, inputs, bound) && Widens(bound, binds)
    requires forall n | n in BindNames(text) && !IsReserved(Upper(n)) :: Upper(n) in CanonicalNames(defs)
    requires httpMethod == "GET" || binds == bound
    ensures ToldByRequest(runtime, defs, inputs, httpMethod, text, ExecutionBindings(text, binds))
  {
    forall n | n in BindNames(text)
      ensures !IsReserved(Upper(n)) ==> Resolves(binds, n) && Decides(runtime, defs, inputs, n, Resolve(binds, n))
      ensures IsReserved(Upper(n)) && Resolves(binds, n) ==> httpMethod == "GET" && IsRowName(n)
    {
      OneBindIsResolved(runtime, defs, inputs, bound, n);
      ResolvesAlike(bound, binds, n);
    }
  }

  lemma BoundIsCanonical(runtime: Runtime, defs: seq<Definition>, inputs: Inputs, bound: map<string, Value>)
    requires BoundRight(runtime, defs, inputs, bound)
    ensures forall m | m in bound :: Upper(m) == m && !IsReserved(m)
  {
    forall m | m in bound ensures Upper(m) == m && !IsReserved(m) {
      var d :| d in defs && Upper(d.name) == m;
      UpperIsIdempotent(d.name);
    }
  }

  lemma RowBindsAreReserved(offset: int)
    ensures forall n | n in RowNames(offset) :: IsReserved(Upper(n))
  {
    RowNamesAreReserved(ROW_LIMIT);
    RowNamesAreReserved(ROW_START);
    RowNamesAreReserved(ROW_END);
  }

  /** What a GET sends is told by the request. */
  lemma RewrittenIsTold(
    runtime: Runtime, defs: seq<Definition>, inputs: Inputs, bound: map<string, Value>, sql: string, options: Options,
    maxRows: int)
    requires BoundRight(runtime, defs, inputs, bound) && ApplyOptions(runtime, sql, bound, options, maxRows).Ok?
    requires forall n | n in BindNames(sql) && !IsReserved(Upper(n)) :: Upper(n) in CanonicalNames(defs)
    ensures var (text, binds) := ApplyOptions(runtime, sql, bound, options, maxRows).value;
            ToldByRequest(runtime, defs, inputs, "GET", text, ExecutionBindings(text, binds))
  {
    var (text, binds) := ApplyOptions(runtime, sql, bound, options, maxRows).value;
    var (limit, offset) := RowWindow(runtime, options, maxRows).value;
    OrderedKeepsBinds(runtime, sql, options.orderBy);
    PaginateBinds(Ordered(runtime, sql, options.orderBy).value, bound, limit, offset);
    BoundIsCanonical(runtime, defs, inputs, bound);
    WindowWidens(bound, limit, offset);
    RowBindsAreReserved(offset);
    GivenIsTold(runtime, defs, inputs, bound, binds, "GET", text);
  }

  /** For an accepted configuration: what is prepared is accepted by the policy and told by the request;
      a write is executed as it is stored. */
  lemma PreparedIsTold(
    runtime: Runtime, route: string, sql: string, httpMethod: string, defs: seq<Definition>, inputs: Inputs, maxRows: nat)
    requires CheckConfiguration(runtime, route, sql, httpMethod, defs).None? && Bind(runtime, defs, inputs).Ok?
    requires var (bound, options) := Bind(runtime, defs, inputs).value;
             Prepared(runtime, sql, bound, httpMethod, options, maxRows).Ok?
    ensures var (bound, options) := Bind(runtime, defs, inputs).value;
            var (text, given, statementType) := Prepared(runtime, sql, bound, httpMethod, options, maxRows).value;
            && Validation.Validate(sql, httpMethod) == Validation.Valid(statementType)
            && ToldByRequest(runtime, defs, inputs, httpMethod, text, given)
            && (httpMethod != "GET" ==> text == sql)
  {
    var (bound, options) := Bind(runtime, defs, inputs).value;
    AcceptedNames(runtime, route, sql, httpMethod, defs);
    CheckedBound(runtime, defs, inputs);
    if httpMethod == "GET" {
      RewrittenIsTold(runtime, defs, inputs, bound, sql, options, maxRows);
    } else {
      BoundIsCanonical(runtime, defs, inputs, bound);
      GivenIsTold(runtime, defs, inputs, bound, bound, httpMethod, sql);
    }
  }

  datatype RequestFailure = Unprocessable(error: BindError) | Failed(failure: Failure)

  /** One request against a stored query whose configuration was accepted. Nothing is executed unless the
      request binds and the policy accepts the stored statement; what is executed is told by the request,
      and is the stored statement itself unless it reads. */
  method ServeRequest<R>(
    runtime: Runtime, ghost route: string, sql: string, httpMethod: string, defs: seq<Definition>, inputs: Inputs,
    maxRows: nat, chunkSize: nat, answer: Answer<R>, commits: bool, canceled: nat -> bool
  ) returns (r: Result<Output<R>, RequestFailure>, trace: seq<Action>)
    requires chunkSize > 0
    requires CheckConfiguration(runtime, route, sql, httpMethod, defs).None?
    ensures Bind(runtime, defs, inputs).Err? ==> r == Err(Unprocessable(Bind(runtime, defs, inputs).error)) && trace == []
    ensures forall a | a in trace && a.Execute? ::
              && Bind(runtime, defs, inputs).Ok?
              && Validation.Validate(sql, httpMethod).Valid?
              && ToldByRequest(runtime, defs, inputs, httpMethod, a.text, a.given)
              && (httpMethod != "GET" ==> a.text == sql)
    ensures r.Ok? ==> exists a | a in trace :: a.Execute?
    ensures Commit in trace <==> httpMethod != "GET" && r.Ok?
  {
    var bound := BindParameters(runtime, defs, inputs);
    if bound.Err? {
      return Err(Unprocessable(bound.error)), [];
    }
    var (params, options) := bound.value;
    var ran;
    ran, trace := ExecuteQuery(runtime, sql, params, httpMethod, options, maxRows, chunkSize, false, answer, commits, canceled);
    if Prepared(runtime, sql, params, httpMethod, options, maxRows).Ok? {
      PreparedIsTold(runtime, route, sql, httpMethod, defs, inputs, maxRows);
    }
    r := if ran.Ok? then Ok(ran.value) else Err(Failed(ran.error));
  }
}

/** Every bind of a published statement receives the value of its definition, and nothing else is
    handed to the database. */
module BindingTheorems {
  import opened Wrappers
  import opened Text
  import opened Parameters

  lemma {:induction false} CanonicalTail(defs: seq<Definition>)
    requires defs != []
    ensures CanonicalNames(defs)[1..] == CanonicalNames(defs[1..])
  {
  }

  /** Binding touches the canonical names of the definitions and no others. */
  lemma {:induction false} BindAllFrame(
    runtime: Runtime, defs: seq<Definition>, sources: Sources, bound: map<string, Value>)
    requires BindAll(runtime, defs, sources, bound).Ok?
    ensures var r := BindAll(runtime, defs, sources, bound).value;
            && r.Keys == bound.Keys + (set n | n in CanonicalNames(defs))
            && (forall n | n in bound && n !in CanonicalNames(defs) :: n in r && r[n] == bound[n])
    decreases |defs|
  {
    if defs != [] {
      var name := Upper(defs[0].name);
      var v := BindOne(runtime, defs[0], sources.Of(defs[0].source)).value;
      BindAllFrame(runtime, defs[1..], sources, bound[name := v]);
      CanonicalTail(defs);
      assert CanonicalNames(defs) == [name] + CanonicalNames(defs[1..]);
    }
  }

  /** Each definition decides the value under its own canonical name. */
  lemma {:induction false} BindAllValue(
    runtime: Runtime, defs: seq<Definition>, sources: Sources, bound: map<string, Value>, k: nat)
    requires Distinct(CanonicalNames(defs)) && k < |defs|
    requires BindAll(runtime, defs, sources, bound).Ok?
    ensures var r := BindAll(runtime, defs, sources, bound).value;
            var d := defs[k];
            Upper(d.name) in r && BindOne(runtime, d, sources.Of(d.source)) == Ok(r[Upper(d.name)])
    decreases |defs|
  {
    var name := Upper(defs[0].name);
    var next := bound[name := BindOne(runtime, defs[0], sources.Of(defs[0].source)).value];
    CanonicalTail(defs);
    if k == 0 {
      BindAllFrame(runtime, defs[1..], sources, next);
      assert name !in CanonicalNames(defs[1..]);
    } else {
      BindAllValue(runtime, defs[1..], sources, next, k - 1);
    }
  }

  lemma {:induction false} ChecksAreUniform(runtime: Runtime, defs: seq<Definition>)
    requires CheckDefinitions(runtime, defs).None?
    ensures forall d | d in defs :: CheckDefinition(runtime, d).None?
  {
    if defs != [] {
      ChecksAreUniform(runtime, defs[1..]);
      assert forall d | d in defs :: d == defs[0] || d in defs[1..];
    }
  }

  lemma {:induction false} NameIsDefined(detected: seq<Detected>, name: string, names: seq<string>)
    requires MissingNames(detected, names) == [] && name in NamesOf(detected)
    ensures name in names
  {
    var k :| 0 <= k < |detected| && NamesOf(detected)[k] == name;
    assert detected[k] in detected;
  }

  /** Detection finds every bind of the SQL text that is not reserved, under its canonical name. */
  lemma DetectionFindsBinds(route: string, sql: string, httpMethod: string)
    ensures forall n | n in BindNames(sql) && !IsReserved(Upper(n)) ::
              Upper(n) in NamesOf(Detect(route, sql, httpMethod))
  {
    AddNewFinds(AddNew([], RouteNames(route), "path", false), BindNames(sql),
                if Upper(httpMethod) == "GET" then "query" else "body", true);
  }

  predicate Names(names: seq<string>, canonical: string) {
    exists n | n in names :: Upper(n) == canonical
  }

  lemma {:induction false} AddNewFrom(found: seq<Detected>, names: seq<string>, source: string, skipReserved: bool)
    ensures forall d | d in AddNew(found, names, source, skipReserved) ::
              d in found
              || (d.source == source && Names(names, d.name) && d.name !in NamesOf(found)
                  && !(skipReserved && IsReserved(d.name)))
    decreases |names|
  {
    if names != [] {
      var name := Upper(names[0]);
      var next := if name in NamesOf(found) || (skipReserved && IsReserved(name)) then found
                  else found + [Detected(name, source)];
      if next != found {
        ExtendNames(found, Detected(name, source));
      }
      AddNewFrom(next, names[1..], source, skipReserved);
      assert names[0] in names;
    }
  }

  /** Detection finds the path parameters and the binds that are not reserved, and nothing else; a name
      in both is a path parameter. */
  lemma {:induction false} DetectionIsExact(route: string, sql: string, httpMethod: string)
    ensures forall d | d in Detect(route, sql, httpMethod) ::
              if Names(RouteNames(route), d.name) then d.source == "path"
              else && d.source == (if Upper(httpMethod) == "GET" then "query" else "body")
                   && Names(BindNames(sql), d.name) && !IsReserved(d.name)
    ensures forall n | n in RouteNames(route) :: Upper(n) in NamesOf(Detect(route, sql, httpMethod))
  {
    var source := if Upper(httpMethod) == "GET" then "query" else "body";
    var path := AddNew([], RouteNames(route), "path", false);
    AddNewFrom([], RouteNames(route), "path", false);
    AddNewFrom(path, BindNames(sql), source, true);
    AddNewFinds([], RouteNames(route), "path", false);
    AddNewFinds(path, BindNames(sql), source, true);
  }

  // ----- when a request binds

  predicate OncePerName(pairs: seq<(string, Value)>) {
    forall i, j :: 0 <= i < j < |pairs| ==> Upper(pairs[i].0) != Upper(pairs[j].0)
  }

  /** A source is accepted exactly when no two of its names agree up to case, and keeps its values. */
  lemma {:induction false} NormalizeOutcome(source: string, pairs: seq<(string, Value)>, values: map<string, Value>)
    ensures var r := Parameters.Normalize(source, pairs, values);
            && (r.Ok? <==> OncePerName(pairs) && forall p | p in pairs :: Upper(p.0) !in values)
            && (r.Ok? ==>
                  && r.value.Keys == values.Keys + (set p | p in pairs :: Upper(p.0))
                  && (forall n | n in values :: r.value[n] == values[n])
                  && (forall p | p in pairs :: r.value[Upper(p.0)] == p.1))
    decreases |pairs|
  {
    if pairs != [] {
      var name := Upper(pairs[0].0);
      if name !in values {
        NormalizeOutcome(source, pairs[1..], values[name := pairs[0].1]);
        OnceInTail(pairs);
      } else {
        assert pairs[0] in pairs;
      }
    }
  }

  lemma OnceInTail(pairs: seq<(string, Value)>)
    requires pairs != []
    ensures OncePerName(pairs)
            <==> OncePerName(pairs[1..]) && forall p | p in pairs[1..] :: Upper(p.0) != Upper(pairs[0].0)
    ensures forall p :: p in pairs <==> p == pairs[0] || p in pairs[1..]
  {
    var rest := pairs[1..];
    assert forall j | 0 < j < |pairs| :: pairs[j] == rest[j - 1];
    if OncePerName(rest) && forall p | p in rest :: Upper(p.0) != Upper(pairs[0].0) {
      forall i, j | 0 <= i < j < |pairs| ensures Upper(pairs[i].0) != Upper(pairs[j].0) {
        assert pairs[j] in rest;
      }
    }
  }

  lemma {:induction false} BindAllOutcome(
    runtime: Runtime, defs: seq<Definition>, sources: Sources, bound: map<string, Value>)
    ensures BindAll(runtime, defs, sources, bound).Ok?
            <==> forall d | d in defs :: BindOne(runtime, d, sources.Of(d.source)).Ok?
    decreases |defs|
  {
    if defs != [] {
      var first := BindOne(runtime, defs[0], sources.Of(defs[0].source));
      assert defs[0] in defs;
      if first.Ok? {
        BindAllOutcome(runtime, defs[1..], sources, bound[Upper(defs[0].name) := first.value]);
        assert forall d :: d in defs <==> d == defs[0] || d in defs[1..];
      }
    }
  }

  predicate Known(defs: seq<Definition>, source: string, name: string) {
    (exists d | d in defs :: d.source == source && Upper(d.name) == name) || (source == "query" && name in RESERVED)
  }

  lemma NoneUnknown(source: string, values: map<string, Value>, defs: seq<Definition>)
    ensures UnknownNames(source, values, defs) == {} <==> forall n | n in values :: Known(defs, source, n)
  {
    forall n | n in values ensures n !in UnknownNames(source, values, defs) <==> Known(defs, source, n) {
    }
  }

  /** Main result. A request binds exactly when no source repeats a name up to case, every name belongs
      to a definition of its source or is a reserved query name, and every definition obtains a value
      that converts and fits its rule. The paging options are then the reserved query values. */
  lemma BindSucceedsIff(runtime: Runtime, defs: seq<Definition>, inputs: Inputs)
    ensures NormalizeAll(inputs).Ok?
            <==> OncePerName(inputs.path) && OncePerName(inputs.query) && OncePerName(inputs.body)
    ensures Bind(runtime, defs, inputs).Ok?
            <==> && NormalizeAll(inputs).Ok?
                 && var s := NormalizeAll(inputs).value;
                    && (forall n | n in s.path :: Known(defs, "path", n))
                    && (forall n | n in s.query :: Known(defs, "query", n))
                    && (forall n | n in s.body :: Known(defs, "body", n))
                    && forall d | d in defs :: BindOne(runtime, d, s.Of(d.source)).Ok?
  {
    NormalizeOutcome("path", inputs.path, map[]);
    NormalizeOutcome("query", inputs.query, map[]);
    NormalizeOutcome("body", inputs.body, map[]);
    if NormalizeAll(inputs).Ok? {
      var s := NormalizeAll(inputs).value;
      NoneUnknown("path", s.path, defs);
      NoneUnknown("query", s.query, defs);
      NoneUnknown("body", s.body, defs);
      BindAllOutcome(runtime, defs, s, map[]);
    }
  }

  // ----- what a request is bound to, told from the request itself

  /** What a request sends in one of its three sources. */
  function PairsOf(inputs: Inputs, source: string): seq<(string, Value)> {
    if source == "path" then inputs.path else if source == "query" then inputs.query else inputs.body
  }

  /** The request sends a value under this name, in any letter case. */
  predicate Sends(pairs: seq<(string, Value)>, name: string, v: Value) {
    exists p | p in pairs :: Upper(p.0) == Upper(name) && p.1 == v
  }

  predicate Mentions(pairs: seq<(string, Value)>, name: string) {
    exists p | p in pairs :: Upper(p.0) == Upper(name)
  }

  /** The value converts to the type of the definition and fits its rule. */
  predicate Fits(runtime: Runtime, d: Definition, raw: Value, v: Value) {
    Convert(runtime, raw, d.kind) == Some(v)
    && (d.rule.Some? && d.rule.value != "" ==> runtime.fullMatch(d.rule.value, runtime.text(v)))
  }

  /** The value a definition obtains: the one sent, converted; null for a null that is sent; otherwise
      its default, converted; otherwise null, if it is optional. */
  predicate Obtains(runtime: Runtime, d: Definition, inputs: Inputs, v: Value) {
    var pairs := PairsOf(inputs, d.source);
    if Sends(pairs, d.name, Null) then v == Null
    else if Mentions(pairs, d.name) then exists p | p in pairs :: Upper(p.0) == Upper(d.name) && Fits(runtime, d, p.1, v)
    else if d.default.Some? then Fits(runtime, d, Str(d.default.value), v)
    else !d.required && v == Null
  }

  /** The values of one source, as normalised. */
  predicate Collects(values: map<string, Value>, pairs: seq<(string, Value)>) {
    && (forall p | p in pairs :: Upper(p.0) in values && values[Upper(p.0)] == p.1)
    && (forall n | n in values :: exists p | p in pairs :: Upper(p.0) == n)
  }

  lemma NormalizeCollects(source: string, pairs: seq<(string, Value)>)
    ensures var r := Parameters.Normalize(source, pairs, map[]);
            && (r.Ok? <==> OncePerName(pairs)) && (r.Ok? ==> Collects(r.value, pairs))
  {
    NormalizeOutcome(source, pairs, map[]);
  }

  lemma SourcesCollect(inputs: Inputs, source: string)
    requires NormalizeAll(inputs).Ok?
    ensures Collects(NormalizeAll(inputs).value.Of(source), PairsOf(inputs, source))
  {
    NormalizeCollects("path", inputs.path);
    NormalizeCollects("query", inputs.query);
    NormalizeCollects("body", inputs.body);
  }

  lemma BindsWhatItObtains(runtime: Runtime, d: Definition, inputs: Inputs, values: map<string, Value>, v: Value)
    requires Collects(values, PairsOf(inputs, d.source))
    ensures BindOne(runtime, d, values) == Ok(v) <==> Obtains(runtime, d, inputs, v)
  {
    var pairs, name := PairsOf(inputs, d.source), Upper(d.name);
    if name in values {
      var p :| p in pairs && Upper(p.0) == name;
      assert values[name] == p.1;
      assert Mentions(pairs, d.name) && Sends(pairs, d.name, p.1);
      assert Sends(pairs, d.name, Null) <==> p.1 == Null;
    } else {
      assert !Mentions(pairs, d.name) && !Sends(pairs, d.name, Null);
    }
  }

  /** The definition whose value a bind receives, whatever letter case the bind, the definition or the
      request uses. */
  ghost predicate Decides(runtime: Runtime, defs: seq<Definition>, inputs: Inputs, name: string, value: Value) {
    exists d | d in defs :: Upper(d.name) == Upper(name) && Obtains(runtime, d, inputs, value)
  }

  /** Every value belongs to a definition of its source, or is a paging option. */
  predicate AllKnown(defs: seq<Definition>, inputs: Inputs, source: string) {
    forall p | p in PairsOf(inputs, source) ::
      || (exists d | d in defs :: d.source == source && Upper(d.name) == Upper(p.0))
      || (source == "query" && Upper(p.0) in {"LIMIT", "OFFSET", "ORDER_BY"})
  }

  lemma KnownPairs(defs: seq<Definition>, inputs: Inputs, source: string, values: map<string, Value>)
    requires Collects(values, PairsOf(inputs, source))
    ensures (forall n | n in values :: Known(defs, source, n)) <==> AllKnown(defs, inputs, source)
  {
    assert forall n :: n in RESERVED <==> n in {"LIMIT", "OFFSET", "ORDER_BY"};
  }

  /** An option is the value sent under its name in the query string. */
  predicate IsOption(inputs: Inputs, name: string, option: Option<Value>) {
    if option.Some? then Sends(inputs.query, name, option.value) else !Mentions(inputs.query, name)
  }

  lemma OptionIsSent(inputs: Inputs, values: map<string, Value>, name: string)
    requires Collects(values, inputs.query) && Upper(name) == name
    ensures IsOption(inputs, name, Get(values, name))
  {
    if name in values {
      var p :| p in inputs.query && Upper(p.0) == name;
    }
  }

  /** Main result, told from the request. A request binds exactly when no source sends a name twice up to
      case, every name belongs to a definition of its source or is a paging option, and every definition
      obtains a value. Each definition is then bound to the value it obtains, nothing else is bound, and
      the paging options are those sent. */
  lemma BindOutcome(runtime: Runtime, defs: seq<Definition>, inputs: Inputs)
    ensures Bind(runtime, defs, inputs).Ok?
            <==> && OncePerName(inputs.path) && OncePerName(inputs.query) && OncePerName(inputs.body)
                 && AllKnown(defs, inputs, "path") && AllKnown(defs, inputs, "query") && AllKnown(defs, inputs, "body")
                 && forall d | d in defs :: exists v :: Obtains(runtime, d, inputs, v)
    ensures Bind(runtime, defs, inputs).Ok? ==>
              var (bound, options) := Bind(runtime, defs, inputs).value;
              && bound.Keys == (set d | d in defs :: Upper(d.name))
              && (Distinct(CanonicalNames(defs)) ==>
                    forall d | d in defs :: Obtains(runtime, d, inputs, bound[Upper(d.name)]))
              && IsOption(inputs, "LIMIT", options.limit) && IsOption(inputs, "OFFSET", options.offset)
              && IsOption(inputs, "ORDER_BY", options.orderBy)
  {
    BindSucceedsIff(runtime, defs, inputs);
    if NormalizeAll(inputs).Ok? {
      var s := NormalizeAll(inputs).value;
      AllSources(defs, inputs, s);
      forall d | d in defs
        ensures BindOne(runtime, d, s.Of(d.source)).Ok? <==> exists v :: Obtains(runtime, d, inputs, v)
      {
        OneObtains(runtime, d, inputs, s);
      }
      if Bind(runtime, defs, inputs).Ok? {
        BoundAsObtained(runtime, defs, inputs, s);
        OptionsAreSent(inputs, s);
      }
    }
  }

  lemma AllSources(defs: seq<Definition>, inputs: Inputs, s: Sources)
    requires NormalizeAll(inputs) == Ok(s)
    ensures (forall n | n in s.path :: Known(defs, "path", n)) <==> AllKnown(defs, inputs, "path")
    ensures (forall n | n in s.query :: Known(defs, "query", n)) <==> AllKnown(defs, inputs, "query")
    ensures (forall n | n in s.body :: Known(defs, "body", n)) <==> AllKnown(defs, inputs, "body")
  {
    SourcesCollect(inputs, "path");
    SourcesCollect(inputs, "query");
    SourcesCollect(inputs, "body");
    KnownPairs(defs, inputs, "path", s.path);
    KnownPairs(defs, inputs, "query", s.query);
    KnownPairs(defs, inputs, "body", s.body);
  }

  lemma OneObtains(runtime: Runtime, d: Definition, inputs: Inputs, s: Sources)
    requires NormalizeAll(inputs) == Ok(s)
    ensures BindOne(runtime, d, s.Of(d.source)).Ok? <==> exists v :: Obtains(runtime, d, inputs, v)
    ensures forall v :: BindOne(runtime, d, s.Of(d.source)) == Ok(v) <==> Obtains(runtime, d, inputs, v)
  {
    SourcesCollect(inputs, d.source);
    forall v ensures BindOne(runtime, d, s.Of(d.source)) == Ok(v) <==> Obtains(runtime, d, inputs, v) {
      BindsWhatItObtains(runtime, d, inputs, s.Of(d.source), v);
    }
    if BindOne(runtime, d, s.Of(d.source)).Ok? {
      assert Obtains(runtime, d, inputs, BindOne(runtime, d, s.Of(d.source)).value);
    }
  }

  lemma BoundAsObtained(runtime: Runtime, defs: seq<Definition>, inputs: Inputs, s: Sources)
    requires NormalizeAll(inputs) == Ok(s) && Bind(runtime, defs, inputs).Ok?
    ensures var bound := Bind(runtime, defs, inputs).value.0;
            && bound.Keys == (set d | d in defs :: Upper(d.name))
            && (Distinct(CanonicalNames(defs)) ==>
                  forall d | d in defs :: Obtains(runtime, d, inputs, bound[Upper(d.name)]))
  {
    var bound := Bind(runtime, defs, inputs).value.0;
    BindAllFrame(runtime, defs, s, map[]);
    NamesOfDefinitions(defs);
    if Distinct(CanonicalNames(defs)) {
      forall d | d in defs ensures Obtains(runtime, d, inputs, bound[Upper(d.name)]) {
        var k :| 0 <= k < |defs| && defs[k] == d;
        BindAllValue(runtime, defs, s, map[], k);
        OneObtains(runtime, d, inputs, s);
      }
    }
  }

  lemma NamesOfDefinitions(defs: seq<Definition>)
    ensures (set n | n in CanonicalNames(defs)) == set d | d in defs :: Upper(d.name)
  {
    forall n ensures n in CanonicalNames(defs) <==> exists d | d in defs :: Upper(d.name) == n {
      if n in CanonicalNames(defs) {
        var k :| 0 <= k < |defs| && CanonicalNames(defs)[k] == n;
        assert defs[k] in defs;
      }
      if d :| d in defs && Upper(d.name) == n {
        var k :| 0 <= k < |defs| && defs[k] == d;
        assert CanonicalNames(defs)[k] == n;
      }
    }
  }

  lemma OptionsAreSent(inputs: Inputs, s: Sources)
    requires NormalizeAll(inputs) == Ok(s)
    ensures IsOption(inputs, "LIMIT", Get(s.query, "LIMIT")) && IsOption(inputs, "OFFSET", Get(s.query, "OFFSET"))
    ensures IsOption(inputs, "ORDER_BY", Get(s.query, "ORDER_BY"))
  {
    SourcesCollect(inputs, "query");
    OptionIsSent(inputs, s.query, "LIMIT");
    OptionIsSent(inputs, s.query, "OFFSET");
    OptionIsSent(inputs, s.query, "ORDER_BY");
  }

  /** What reaches the database: a value for every bind occurrence that is not reserved, the one its
      definition obtains, and nothing else. */
  ghost predicate BindsCompletely(runtime: Runtime, sql: string, defs: seq<Definition>, inputs: Inputs)
    requires Bind(runtime, defs, inputs).Ok?
  {
    var given := ExecutionBindings(sql, Bind(runtime, defs, inputs).value.0);
    && (forall n | n in given :: n in BindNames(sql))
    && (forall n | n in BindNames(sql) :: n in given <==> !IsReserved(Upper(n)))
    && (forall n | n in given :: Decides(runtime, defs, inputs, n, given[n]))
  }

  /** Main result. For an accepted configuration and a request that binds, every bind occurrence
      that is not reserved receives the value its definition obtains from the request, no value goes to
      a name that the SQL text does not mention, and a reserved bind never receives any. */
  lemma BindingIsComplete(
    runtime: Runtime, route: string, sql: string, httpMethod: string, defs: seq<Definition>, inputs: Inputs)
    requires CheckConfiguration(runtime, route, sql, httpMethod, defs).None?
    requires Bind(runtime, defs, inputs).Ok?
    ensures BindsCompletely(runtime, sql, defs, inputs)
  {
    var bound := Bind(runtime, defs, inputs).value.0;
    AcceptedNames(runtime, route, sql, httpMethod, defs);
    CheckedBound(runtime, defs, inputs);
    forall n | n in BindNames(sql)
      ensures Resolves(bound, n) <==> !IsReserved(Upper(n))
      ensures Resolves(bound, n) ==> Decides(runtime, defs, inputs, n, Resolve(bound, n))
    {
      OneBindIsResolved(runtime, defs, inputs, bound, n);
    }
  }

  lemma CheckedBound(runtime: Runtime, defs: seq<Definition>, inputs: Inputs)
    requires Distinct(CanonicalNames(defs)) && forall d | d in defs :: CheckDefinition(runtime, d).None?
    requires Bind(runtime, defs, inputs).Ok?
    ensures BoundRight(runtime, defs, inputs, Bind(runtime, defs, inputs).value.0)
  {
    BindOutcome(runtime, defs, inputs);
  }

  /** The values of a binding stand under canonical names that are not reserved. */
  ghost predicate BoundRight(runtime: Runtime, defs: seq<Definition>, inputs: Inputs, bound: map<string, Value>) {
    && bound.Keys == (set d | d in defs :: Upper(d.name))
    && (forall d | d in defs :: !IsReserved(Upper(d.name)) && Obtains(runtime, d, inputs, bound[Upper(d.name)]))
  }

  lemma OneBindIsResolved(
    runtime: Runtime, defs: seq<Definition>, inputs: Inputs, bound: map<string, Value>, n: string)
    requires BoundRight(runtime, defs, inputs, bound)
    requires !IsReserved(Upper(n)) ==> Upper(n) in CanonicalNames(defs)
    ensures Resolves(bound, n) <==> !IsReserved(Upper(n))
    ensures Resolves(bound, n) ==> Decides(runtime, defs, inputs, n, Resolve(bound, n))
  {
    NamesOfDefinitions(defs);
    forall m | m in bound ensures Upper(m) == m && !IsReserved(m) && Decides(runtime, defs, inputs, m, bound[m]) {
      var d :| d in defs && Upper(d.name) == m;
      UpperIsIdempotent(d.name);
    }
    assert Upper(n) in bound <==> Upper(n) in CanonicalNames(defs);
    if n in bound {
      assert Upper(n) == n;
    } else if Upper(n) in bound {
      UpperIsIdempotent(n);
    }
  }

  lemma AcceptedParameters(
    runtime: Runtime, route: string, sql: string, httpMethod: string, defs: seq<Definition>)
    requires CheckConfiguration(runtime, route, sql, httpMethod, defs).None?
    ensures CheckParameters(runtime, route, sql, Upper(httpMethod), defs).None?
  {
  }

  /** What acceptance says about names: they are distinct, none is reserved, and every bind that is
      not reserved has one. */
  lemma {:induction false} AcceptedNames(
    runtime: Runtime, route: string, sql: string, httpMethod: string, defs: seq<Definition>)
    requires CheckConfiguration(runtime, route, sql, httpMethod, defs).None?
    ensures Distinct(CanonicalNames(defs))
    ensures forall d | d in defs :: CheckDefinition(runtime, d).None?
    ensures forall n | n in BindNames(sql) && !IsReserved(Upper(n)) :: Upper(n) in CanonicalNames(defs)
  {
    AcceptedParameters(runtime, route, sql, httpMethod, defs);
    CheckedNames(runtime, route, sql, Upper(httpMethod), defs);
  }

  lemma {:induction false} CheckedNames(
    runtime: Runtime, route: string, sql: string, name: string, defs: seq<Definition>)
    requires CheckParameters(runtime, route, sql, name, defs).None?
    ensures Distinct(CanonicalNames(defs))
    ensures forall d | d in defs :: CheckDefinition(runtime, d).None?
    ensures forall n | n in BindNames(sql) && !IsReserved(Upper(n)) :: Upper(n) in CanonicalNames(defs)
  {
    ChecksAreUniform(runtime, defs);
    DetectionFindsBinds(route, sql, name);
    forall n | n in BindNames(sql) && !IsReserved(Upper(n)) ensures Upper(n) in CanonicalNames(defs) {
      NameIsDefined(Detect(route, sql, name), Upper(n), CanonicalNames(defs));
    }
  }

  lemma CheckedSources(
    runtime: Runtime, route: string, sql: string, name: string, defs: seq<Definition>)
    requires CheckParameters(runtime, route, sql, name, defs).None?
    ensures (set d | d in Detect(route, "", name) :: d.name) == PathNames(defs)
    ensures forall d | d in defs && d.source == "path" :: d.required
    ensures name == "GET" ==> forall d | d in defs :: d.source != "body"
  {
  }

  /** What acceptance says about path parameters: they are those of the path, and required. */
  lemma {:induction false} AcceptedPaths(
    runtime: Runtime, route: string, sql: string, httpMethod: string, defs: seq<Definition>)
    requires CheckConfiguration(runtime, route, sql, httpMethod, defs).None?
    ensures forall d | d in defs && d.source == "path" :: d.required && Names(RouteNames(route), Upper(d.name))
    ensures forall n | n in RouteNames(route) :: exists d | d in defs :: d.source == "path" && Upper(d.name) == Upper(n)
    ensures Upper(httpMethod) == "GET" ==> forall d | d in defs :: d.source != "body"
  {
    AcceptedParameters(runtime, route, sql, httpMethod, defs);
    CheckedSources(runtime, route, sql, Upper(httpMethod), defs);
    PathsMatch(route, Upper(httpMethod), defs);
  }

  lemma {:induction false} PathsMatch(route: string, httpMethod: string, defs: seq<Definition>)
    requires (set d | d in Detect(route, "", httpMethod) :: d.name) == PathNames(defs)
    ensures forall d | d in defs && d.source == "path" :: Names(RouteNames(route), Upper(d.name))
    ensures forall n | n in RouteNames(route) :: exists d | d in defs :: d.source == "path" && Upper(d.name) == Upper(n)
  {
    var detected := Detect(route, "", httpMethod);
    DetectionIsExact(route, "", httpMethod);
    NoBinds();
    FoundAreDefined(detected, defs, set d | d in detected :: d.name, PathNames(defs));
    forall n | n in RouteNames(route) ensures exists d | d in defs :: d.source == "path" && Upper(d.name) == Upper(n) {
      var k :| 0 <= k < |detected| && NamesOf(detected)[k] == Upper(n);
      assert detected[k] in detected;
    }
  }

  lemma NoBinds()
    ensures BindNames("") == []
  {
  }

  lemma FoundAreDefined(
    detected: seq<Detected>, defs: seq<Definition>, found: set<string>, defined: set<string>)
    requires found == (set d | d in detected :: d.name) && defined == PathNames(defs)
    requires found == defined
    ensures forall d | d in defs && d.source == "path" :: exists c | c in detected :: c.name == Upper(d.name)
    ensures forall c | c in detected :: exists d | d in defs :: d.source == "path" && Upper(d.name) == c.name
  {
    forall d | d in defs && d.source == "path" ensures exists c | c in detected :: c.name == Upper(d.name) {
      assert Upper(d.name) in found;
    }
    forall c | c in detected ensures exists d | d in defs :: d.source == "path" && Upper(d.name) == c.name {
      assert c.name in defined;
    }
  }

  /** A default that the snapshot has stored never makes a binding fail. */
  lemma StoredDefaultsBind(runtime: Runtime, d: Definition, values: map<string, Value>)
    requires CheckDefinition(runtime, d).None?
    requires Upper(d.name) !in values
    ensures var r := BindOne(runtime, Stored(d), values);
            if Given(d.default) then
              && r.Ok? && Convert(runtime, Str(d.default.value), d.kind) == Some(r.value)
              && PassesRule(runtime, d.rule, r.value)
            else r == if d.required then Err(Missing(Upper(d.name))) else Ok(Null)
  {
    UpperIsIdempotent(d.name);
  }

  // ----- the definitions as stored

  function StoredAll(defs: seq<Definition>): (r: seq<Definition>)
    ensures |r| == |defs|
    ensures forall k :: 0 <= k < |r| ==> r[k] == Stored(defs[k])
  {
    if defs == [] then [] else [Stored(defs[0])] + StoredAll(defs[1..])
  }

  lemma NamesSurviveCase(s: string)
    ensures IsName(Upper(s)) <==> IsName(s)
  {
    var u := Upper(s);
    assert forall k :: 0 <= k < |s| ==> u[k] == UpperChar(s[k]) && (IsWord(u[k]) <==> IsWord(s[k]));
    if IsName(u) {
      forall c | c in s ensures IsWord(c) {
        var k :| 0 <= k < |s| && s[k] == c;
        assert u[k] in u;
      }
    }
    if IsName(s) {
      forall c | c in u ensures IsWord(c) {
        var k :| 0 <= k < |u| && u[k] == c;
        assert s[k] in s;
      }
    }
  }

  lemma StoredChecksAlike(runtime: Runtime, d: Definition)
    ensures CheckDefinition(runtime, Stored(d)) == CheckDefinition(runtime, d)
    ensures Upper(Stored(d).name) == Upper(d.name)
  {
    NamesSurviveCase(d.name);
    UpperIsIdempotent(d.name);
  }

  lemma {:induction false} AllCheckAlike(runtime: Runtime, defs: seq<Definition>)
    ensures CheckDefinitions(runtime, StoredAll(defs)) == CheckDefinitions(runtime, defs)
    ensures CanonicalNames(StoredAll(defs)) == CanonicalNames(defs)
  {
    if defs != [] {
      var rest := StoredAll(defs[1..]);
      StoredChecksAlike(runtime, defs[0]);
      AllCheckAlike(runtime, defs[1..]);
      assert StoredAll(defs)[1..] == rest;
    }
  }

  lemma {:induction false} StoredMembers(defs: seq<Definition>)
    ensures forall d | d in defs :: Stored(d) in StoredAll(defs)
    ensures forall e | e in StoredAll(defs) :: exists d | d in defs :: e == Stored(d)
  {
    forall d | d in defs ensures Stored(d) in StoredAll(defs) {
      var k :| 0 <= k < |defs| && defs[k] == d;
      assert StoredAll(defs)[k] == Stored(d);
    }
    forall e | e in StoredAll(defs) ensures exists d | d in defs :: e == Stored(d) {
      var k :| 0 <= k < |defs| && StoredAll(defs)[k] == e;
      assert defs[k] in defs && e == Stored(defs[k]);
    }
  }

  lemma {:induction false} StoredPaths(defs: seq<Definition>)
    ensures PathNames(StoredAll(defs)) == PathNames(defs)
    ensures HasOptionalPath(StoredAll(defs)) <==> HasOptionalPath(defs)
    ensures HasBody(StoredAll(defs)) <==> HasBody(defs)
  {
    StoredMembers(defs);
    forall d ensures Upper(Stored(d).name) == Upper(d.name) {
      UpperIsIdempotent(d.name);
    }
  }

  /** Storing the definitions changes no verdict on a configuration. */
  lemma {:induction false} StoredIsJudgedAlike(
    runtime: Runtime, route: string, sql: string, httpMethod: string, defs: seq<Definition>)
    ensures CheckConfiguration(runtime, route, sql, httpMethod, StoredAll(defs))
            == CheckConfiguration(runtime, route, sql, httpMethod, defs)
  {
    AllCheckAlike(runtime, defs);
    StoredPaths(defs);
    ParametersJudgedAlike(runtime, route, sql, Upper(httpMethod), defs, StoredAll(defs));
  }

  lemma {:induction false} ParametersJudgedAlike(
    runtime: Runtime, route: string, sql: string, name: string, defs: seq<Definition>, stored: seq<Definition>)
    requires CheckDefinitions(runtime, stored) == CheckDefinitions(runtime, defs)
    requires CanonicalNames(stored) == CanonicalNames(defs) && PathNames(stored) == PathNames(defs)
    requires (HasOptionalPath(stored) <==> HasOptionalPath(defs)) && (HasBody(stored) <==> HasBody(defs))
    ensures CheckParameters(runtime, route, sql, name, stored) == CheckParameters(runtime, route, sql, name, defs)
  {
  }

  /** The binding of the endpoint, which works on the stored definitions of an accepted configuration,
      is complete in the same sense. */
  lemma {:induction false} StoredBindingIsComplete(
    runtime: Runtime, route: string, sql: string, httpMethod: string, defs: seq<Definition>, inputs: Inputs)
    requires CheckConfiguration(runtime, route, sql, httpMethod, defs).None?
    requires Bind(runtime, StoredAll(defs), inputs).Ok?
    ensures BindsCompletely(runtime, sql, StoredAll(defs), inputs)
  {
    StoredIsJudgedAlike(runtime, route, sql, httpMethod, defs);
    BindingIsComplete(runtime, route, sql, httpMethod, StoredAll(defs), inputs);
  }
}

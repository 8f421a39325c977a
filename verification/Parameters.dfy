/** Parameter definitions: detection in route and SQL, configuration checks and the binding of
    request values. */
module Parameters {
  import opened Wrappers
  import opened Text
  import opened Lexer
  import Validation

  // ----- names

  const RESERVED := ["LIMIT", "OFFSET", "ORDER_BY"]

  predicate IsReserved(canonical: string) {
    canonical in RESERVED || "__F2A_" <= canonical
  }

  /** The longest run of word characters that `s` starts with. */
  function WordRun(s: string): (w: string)
    ensures w <= s && (|w| < |s| ==> !IsWord(s[|w|]))
    ensures forall c | c in w :: IsWord(c)
  {
    if s != "" && IsWord(s[0]) then [s[0]] + WordRun(s[1..]) else ""
  }

  predicate IsName(s: string) {
    s != "" && IsNameStart(s[0]) && forall c | c in s :: IsWord(c)
  }

  /** The names in braces of a route path, in order. */
  function RouteNames(s: string): seq<string> {
    if s == "" then []
    else
      var w := WordRun(s[1..]);
      if s[0] == '{' && IsName(w) && 1 + |w| < |s| && s[1 + |w|] == '}'
      then [w] + RouteNames(s[2 + |w|..])
      else RouteNames(s[1..])
  }

  /** The named binds of a text: a colon not preceded by another, then a name. `prev` is the
      character before `s`. */
  function Binds(prev: char, s: string): (names: seq<string>)
    ensures forall n | n in names :: IsName(n)
    decreases |s|
  {
    if s == "" then []
    else
      var w := WordRun(s[1..]);
      if s[0] == ':' && prev != ':' && IsName(w) then [w] + Binds(w[|w| - 1], s[1 + |w|..])
      else Binds(s[0], s[1..])
  }

  /** The bind occurrences of a SQL text, outside comments and literals. */
  function BindNames(sql: string): seq<string> {
    Binds(' ', Skeleton(sql))
  }

  // ----- detection

  datatype Detected = Detected(name: string, source: string)

  function NamesOf(detected: seq<Detected>): (r: seq<string>)
    ensures |r| == |detected|
    ensures forall k :: 0 <= k < |r| ==> r[k] == detected[k].name
  {
    if detected == [] then [] else [detected[0].name] + NamesOf(detected[1..])
  }

  /** Appends the canonical names not seen before, leaving out the reserved ones on demand. */
  function AddNew(found: seq<Detected>, names: seq<string>, source: string, skipReserved: bool): (r: seq<Detected>)
    ensures found <= r
    decreases |names|
  {
    if names == [] then found
    else
      var name := Upper(names[0]);
      AddNew(if name in NamesOf(found) || (skipReserved && IsReserved(name)) then found
             else found + [Detected(name, source)],
             names[1..], source, skipReserved)
  }

  function Detect(route: string, sql: string, httpMethod: string): seq<Detected> {
    AddNew(AddNew([], RouteNames(route), "path", false), BindNames(sql),
           if Upper(httpMethod) == "GET" then "query" else "body", true)
  }

  /** One loop of the detection, with the set of names seen so far. */
  method AppendNew(found: seq<Detected>, names: seq<string>, source: string, skipReserved: bool)
    returns (detected: seq<Detected>)
    ensures detected == AddNew(found, names, source, skipReserved)
  {
    detected := found;
    var seen := set n | n in NamesOf(found);
    for i := 0 to |names|
      invariant AddNew(detected, names[i..], source, skipReserved) == AddNew(found, names, source, skipReserved)
      invariant forall n :: n in seen <==> n in NamesOf(detected)
    {
      assert names[i..][1..] == names[i + 1..];
      var name := Upper(names[i]);
      if name !in seen && !(skipReserved && IsReserved(name)) {
        ExtendNames(detected, Detected(name, source));
        seen := seen + {name};
        detected := detected + [Detected(name, source)];
      }
    }
  }

  method DetectParameters(route: string, sql: string, httpMethod: string) returns (detected: seq<Detected>)
    ensures detected == Detect(route, sql, httpMethod)
  {
    detected := AppendNew([], RouteNames(route), "path", false);
    detected := AppendNew(detected, BindNames(sql), if Upper(httpMethod) == "GET" then "query" else "body", true);
  }

  lemma {:induction false} ExtendNames(detected: seq<Detected>, d: Detected)
    ensures NamesOf(detected + [d]) == NamesOf(detected) + [d.name]
  {
    if detected != [] {
      ExtendNames(detected[1..], d);
      assert (detected + [d])[1..] == detected[1..] + [d];
    }
  }

  /** Everything asked for is found, except what is left out on purpose. */
  lemma {:induction false} AddNewFinds(found: seq<Detected>, names: seq<string>, source: string, skipReserved: bool)
    ensures forall n | n in names && !(skipReserved && IsReserved(Upper(n))) ::
              Upper(n) in NamesOf(AddNew(found, names, source, skipReserved))
    ensures forall n | n in NamesOf(found) :: n in NamesOf(AddNew(found, names, source, skipReserved))
    decreases |names|
  {
    if names != [] {
      var name := Upper(names[0]);
      var next := if name in NamesOf(found) || (skipReserved && IsReserved(name)) then found
                  else found + [Detected(name, source)];
      ExtendNames(found, Detected(name, source));
      AddNewFinds(next, names[1..], source, skipReserved);
      assert forall n | n in names :: n == names[0] || n in names[1..];
    }
  }

  // ----- values and conversions

  /** A scalar of a request or of a bind. `Other` stands for floats, dates and date-times. */
  datatype Value =
    | Null
    | Bool(b: bool)
    | Int(i: int)
    | Str(s: string)
    | Other(kind: string, spelling: string)

  /** Deterministic functions of the Python runtime: `str`, the truth value and `int` of a value, the
      float and ISO parsers, and the regular expression engine. */
  datatype Runtime = Runtime(
    text: Value -> string,
    parse: (string, Value) -> Option<Value>,
    compiles: string -> bool,
    fullMatch: (string, string) -> bool,
    truthy: Value -> bool,
    toInt: Value -> Option<int>)

  const TYPES := ["string", "integer", "float", "boolean", "date", "datetime"]
  const SOURCES := ["path", "query", "body"]

  function AsBool(v: Value): Option<Value> {
    match v
    case Bool(_) => Some(v)
    case Int(i) => if i == 0 || i == 1 then Some(Bool(i == 1)) else None
    case Str(s) =>
      var normalized := Lower(Strip(s));
      if normalized in ["true", "1", "yes", "on", "sim"] then Some(Bool(true))
      else if normalized in ["false", "0", "no", "off", "nao"] then Some(Bool(false))
      else None
    case _ => None
  }

  function Convert(runtime: Runtime, v: Value, kind: string): Option<Value> {
    if kind == "string" then Some(Str(runtime.text(v)))
    else if kind == "integer" || kind == "float" then if v.Bool? then None else runtime.parse(kind, v)
    else if kind == "boolean" then AsBool(v)
    else if kind == "date" || kind == "datetime" then runtime.parse(kind, v)
    else None
  }

  // ----- configuration

  datatype Definition = Definition(
    name: string,
    kind: string,
    source: string,
    required: bool,
    default: Option<string>,
    rule: Option<string>)

  /** Python's truth value of an optional text. */
  predicate Given(s: Option<string>) {
    s.Some? && s.value != ""
  }

  datatype ConfigError =
    | BadSql(error: Validation.Error)
    | BadType
    | BadSource
    | BadName
    | BadRule
    | ReservedName(name: string)
    | BadDefault(name: string)
    | DefaultBreaksRule(name: string)
    | DuplicateNames
    | MissingParameters(names: seq<string>)
    | PathMismatch
    | OptionalPath
    | BodyInGet

  predicate PassesRule(runtime: Runtime, rule: Option<string>, v: Value) {
    !Given(rule) || runtime.fullMatch(rule.value, runtime.text(v))
  }

  function CheckDefinition(runtime: Runtime, d: Definition): Option<ConfigError> {
    var name := Upper(d.name);
    if d.kind !in TYPES then Some(BadType)
    else if d.source !in SOURCES then Some(BadSource)
    else if !IsName(d.name) then Some(BadName)
    else if Given(d.rule) && !runtime.compiles(d.rule.value) then Some(BadRule)
    else if IsReserved(name) then Some(ReservedName(name))
    else if !Given(d.default) then None
    else
      var converted := Convert(runtime, Str(d.default.value), d.kind);
      if converted.None? then Some(BadDefault(name))
      else if !PassesRule(runtime, d.rule, converted.value) then Some(DefaultBreaksRule(name))
      else None
  }

  function CheckDefinitions(runtime: Runtime, defs: seq<Definition>): Option<ConfigError> {
    if defs == [] then None
    else
      var e := CheckDefinition(runtime, defs[0]);
      if e.Some? then e else CheckDefinitions(runtime, defs[1..])
  }

  function CanonicalNames(defs: seq<Definition>): (r: seq<string>)
    ensures |r| == |defs|
    ensures forall k :: 0 <= k < |r| ==> r[k] == Upper(defs[k].name)
  {
    if defs == [] then [] else [Upper(defs[0].name)] + CanonicalNames(defs[1..])
  }

  predicate Distinct<T(==)>(s: seq<T>) {
    forall i, j :: 0 <= i < j < |s| ==> s[i] != s[j]
  }

  function MissingNames(detected: seq<Detected>, names: seq<string>): (r: seq<string>)
    ensures r == [] <==> forall d | d in detected :: d.name in names
  {
    if detected == [] then []
    else (if detected[0].name in names then [] else [detected[0].name]) + MissingNames(detected[1..], names)
  }

  /** The first problem of a configuration, or none when it may be published. */
  function CheckConfiguration(
    runtime: Runtime, route: string, sql: string, httpMethod: string, defs: seq<Definition>
  ): Option<ConfigError>
  {
    var name := Upper(httpMethod);
    var verdict := Validation.Validate(sql, name);
    if verdict.Invalid? then Some(BadSql(verdict.error)) else CheckParameters(runtime, route, sql, name, defs)
  }

  function PathNames(defs: seq<Definition>): set<string> {
    set d | d in defs && d.source == "path" :: Upper(d.name)
  }

  predicate HasOptionalPath(defs: seq<Definition>) {
    exists d | d in defs :: d.source == "path" && !d.required
  }

  predicate HasBody(defs: seq<Definition>) {
    exists d | d in defs :: d.source == "body"
  }

  /** The checks of the parameters against the path and the SQL; `name` is the method in upper case. */
  function CheckParameters(
    runtime: Runtime, route: string, sql: string, name: string, defs: seq<Definition>
  ): Option<ConfigError>
  {
    var wrong := CheckDefinitions(runtime, defs);
    var missing := MissingNames(Detect(route, sql, name), CanonicalNames(defs));
    if wrong.Some? then wrong
    else if !Distinct(CanonicalNames(defs)) then Some(DuplicateNames)
    else if missing != [] then Some(MissingParameters(missing))
    else if (set d | d in Detect(route, "", name) :: d.name) != PathNames(defs) then Some(PathMismatch)
    else if HasOptionalPath(defs) then Some(OptionalPath)
    else if name == "GET" && HasBody(defs) then Some(BodyInGet)
    else None
  }

  /** A definition as the snapshot stores it: empty texts become absent. */
  function Stored(d: Definition): Definition {
    d.(name := Upper(d.name),
       default := if Given(d.default) then d.default else None,
       rule := if Given(d.rule) then d.rule else None)
  }

  // ----- binding

  datatype Inputs = Inputs(path: seq<(string, Value)>, query: seq<(string, Value)>, body: seq<(string, Value)>)

  datatype Options = Options(limit: Option<Value>, offset: Option<Value>, orderBy: Option<Value>)

  datatype BindError =
    | Duplicate(source: string, name: string)
    | Unknown(source: string, names: set<string>)
    | Missing(name: string)
    | BadValue(kind: string)
    | RuleFailed(name: string)

  /** The values of one source under their canonical names. */
  function Normalize(source: string, pairs: seq<(string, Value)>, values: map<string, Value>)
    : Result<map<string, Value>, BindError>
    decreases |pairs|
  {
    if pairs == [] then Ok(values)
    else
      var name := Upper(pairs[0].0);
      if name in values then Err(Duplicate(source, name))
      else Normalize(source, pairs[1..], values[name := pairs[0].1])
  }

  function UnknownNames(source: string, values: map<string, Value>, defs: seq<Definition>): set<string> {
    values.Keys
    - (set d | d in defs && d.source == source :: Upper(d.name))
    - (if source == "query" then set r | r in RESERVED else {})
  }

  function BindOne(runtime: Runtime, d: Definition, values: map<string, Value>): Result<Value, BindError> {
    var name := Upper(d.name);
    if name !in values && d.default.None? && d.required then Err(Missing(name))
    else
      var raw := if name in values then values[name]
                 else if d.default.Some? then Str(d.default.value)
                 else Null;
      if raw == Null then Ok(Null)
      else
        var converted := Convert(runtime, raw, d.kind);
        if converted.None? then Err(BadValue(d.kind))
        else if !PassesRule(runtime, d.rule, converted.value) then Err(RuleFailed(name))
        else Ok(converted.value)
  }

  datatype Sources = Sources(path: map<string, Value>, query: map<string, Value>, body: map<string, Value>) {
    function Of(source: string): map<string, Value> {
      if source == "path" then path else if source == "query" then query else body
    }
  }

  function BindAll(runtime: Runtime, defs: seq<Definition>, sources: Sources, bound: map<string, Value>)
    : Result<map<string, Value>, BindError>
    decreases |defs|
  {
    if defs == [] then Ok(bound)
    else
      match BindOne(runtime, defs[0], sources.Of(defs[0].source))
      case Err(e) => Err(e)
      case Ok(v) => BindAll(runtime, defs[1..], sources, bound[Upper(defs[0].name) := v])
  }

  function NormalizeAll(inputs: Inputs): Result<Sources, BindError> {
    match Normalize("path", inputs.path, map[])
    case Err(e) => Err(e)
    case Ok(path) =>
      match Normalize("query", inputs.query, map[])
      case Err(e) => Err(e)
      case Ok(query) =>
        match Normalize("body", inputs.body, map[])
        case Err(e) => Err(e)
        case Ok(body) => Ok(Sources(path, query, body))
  }

  function FirstUnknown(sources: Sources, defs: seq<Definition>): Option<BindError> {
    var path := UnknownNames("path", sources.path, defs);
    var query := UnknownNames("query", sources.query, defs);
    var body := UnknownNames("body", sources.body, defs);
    if path != {} then Some(Unknown("path", path))
    else if query != {} then Some(Unknown("query", query))
    else if body != {} then Some(Unknown("body", body))
    else None
  }

  function Get<K, V>(m: map<K, V>, k: K): Option<V> {
    if k in m then Some(m[k]) else None
  }

  function Bind(runtime: Runtime, defs: seq<Definition>, inputs: Inputs)
    : Result<(map<string, Value>, Options), BindError>
  {
    match NormalizeAll(inputs)
    case Err(e) => Err(e)
    case Ok(sources) =>
      match FirstUnknown(sources, defs)
      case Some(e) => Err(e)
      case None =>
        match BindAll(runtime, defs, sources, map[])
        case Err(e) => Err(e)
        case Ok(bound) =>
          var q := sources.query;
          Ok((bound, Options(Get(q, "LIMIT"), Get(q, "OFFSET"), Get(q, "ORDER_BY"))))
  }

  method NormalizeSource(source: string, pairs: seq<(string, Value)>)
    returns (r: Result<map<string, Value>, BindError>)
    ensures r == Normalize(source, pairs, map[])
  {
    var normalized: map<string, Value> := map[];
    for i := 0 to |pairs|
      invariant Normalize(source, pairs[i..], normalized) == Normalize(source, pairs, map[])
    {
      assert pairs[i..][1..] == pairs[i + 1..];
      var name := Upper(pairs[i].0);
      if name in normalized {
        return Err(Duplicate(source, name));
      }
      normalized := normalized[name := pairs[i].1];
    }
    return Ok(normalized);
  }

  /** The binding as the service runs it: normalise, refuse unknown fields, then fill in the
      definitions one by one. */
  method BindParameters(runtime: Runtime, defs: seq<Definition>, inputs: Inputs)
    returns (r: Result<(map<string, Value>, Options), BindError>)
    ensures r == Bind(runtime, defs, inputs)
  {
    var path := NormalizeSource("path", inputs.path);
    if path.Err? { return Err(path.error); }
    var query := NormalizeSource("query", inputs.query);
    if query.Err? { return Err(query.error); }
    var body := NormalizeSource("body", inputs.body);
    if body.Err? { return Err(body.error); }
    var sources := Sources(path.value, query.value, body.value);
    var unknown := FirstUnknown(sources, defs);
    if unknown.Some? { return Err(unknown.value); }
    var bound: map<string, Value> := map[];
    for i := 0 to |defs|
      invariant BindAll(runtime, defs[i..], sources, bound) == BindAll(runtime, defs, sources, map[])
    {
      assert defs[i..][1..] == defs[i + 1..];
      var one := BindOne(runtime, defs[i], sources.Of(defs[i].source));
      if one.Err? { return Err(one.error); }
      bound := bound[Upper(defs[i].name) := one.value];
    }
    var q := sources.query;
    return Ok((bound, Options(Get(q, "LIMIT"), Get(q, "OFFSET"), Get(q, "ORDER_BY"))));
  }

  // ----- execution bindings

  predicate Resolves(params: map<string, Value>, name: string) {
    name in params || Upper(name) in params
  }

  function Resolve(params: map<string, Value>, name: string): Value
    requires Resolves(params, name)
  {
    if name in params then params[name] else params[Upper(name)]
  }

  /** The values handed to the database: one for every bind occurrence that can be resolved. */
  function ExecutionBindings(sql: string, params: map<string, Value>): map<string, Value> {
    map n | n in BindNames(sql) && Resolves(params, n) :: Resolve(params, n)
  }

  method CollectBindings(sql: string, params: map<string, Value>) returns (r: map<string, Value>)
    ensures r == ExecutionBindings(sql, params)
  {
    r := map[];
    var names := BindNames(sql);
    for i := 0 to |names|
      invariant r == map n | n in names[..i] && Resolves(params, n) :: Resolve(params, n)
    {
      var actual := names[i];
      assert names[..i + 1] == names[..i] + [actual];
      if actual in params {
        r := r[actual := params[actual]];
        continue;
      }
      var canonical := Upper(actual);
      if canonical in params {
        r := r[actual := params[canonical]];
      }
    }
    assert names[..|names|] == names;
  }
}

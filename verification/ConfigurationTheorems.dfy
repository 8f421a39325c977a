/** Which configurations may be published, told from the path, the statement and the definitions. */
module ConfigurationTheorems {
  import opened Wrappers
  import opened Text
  import opened Lexer
  import opened Parameters
  import opened BindingTheorems
  import opened PaginationTheorems
  import Routes
  import RouteTheorems
  import Validation

  // ----- placeholders and binds

  /** A placeholder with this name starts here. */
  predicate SlotAt(s: string, i: nat, n: string) {
    && IsName(n) && i + 1 + |n| < |s|
    && s[i] == '{' && s[i + 1..i + 1 + |n|] == n && s[i + 1 + |n|] == '}'
  }

  lemma SlotIsRead(s: string, n: string)
    ensures SlotAt(s, 0, n)
            <==> s != "" && s[0] == '{' && n == WordRun(s[1..]) && IsName(n) && 1 + |n| < |s| && s[1 + |n|] == '}'
  {
    if SlotAt(s, 0, n) {
      assert s[1..] == n + s[1 + |n|..];
      RouteTheorems.WordRunEnds(n, s[1 + |n|..]);
    }
  }

  lemma SlotLater(s: string, k: nat, i: nat, n: string)
    requires k <= i
    ensures SlotAt(s, i, n) <==> k <= |s| && SlotAt(s[k..], i - k, n)
  {
    if k <= |s| && i + 1 + |n| < |s| {
      assert s[k..][i - k + 1..i - k + 1 + |n|] == s[i + 1..i + 1 + |n|];
    }
  }

  /** The length of the placeholder that stands first, or one. */
  function FirstPart(s: string): (k: nat)
    requires s != ""
    ensures 0 < k <= |s|
  {
    var w := WordRun(s[1..]);
    if s[0] == '{' && IsName(w) && 1 + |w| < |s| && s[1 + |w|] == '}' then 2 + |w| else 1
  }

  /** A placeholder with this name stands somewhere. */
  ghost predicate HasSlot(s: string, n: string) {
    exists i: nat :: SlotAt(s, i, n)
  }

  /** The names of a path are those of its placeholders, all of them. */
  lemma {:induction false} RouteNamesAreSlots(s: string)
    ensures forall n :: n in RouteNames(s) <==> HasSlot(s, n)
    decreases |s|
  {
    if s != "" {
      var k := FirstPart(s);
      RouteNamesAreSlots(s[k..]);
      forall n ensures n in RouteNames(s) <==> HasSlot(s, n) {
        FirstSlot(s, n);
        LaterSlots(s, k, s[k..], n);
      }
    }
  }

  lemma FirstSlot(s: string, n: string)
    requires s != ""
    ensures n in RouteNames(s) <==> SlotAt(s, 0, n) || n in RouteNames(s[FirstPart(s)..])
  {
    SlotIsRead(s, n);
  }

  lemma LaterSlots(s: string, k: nat, rest: string, n: string)
    requires s != "" && k == FirstPart(s) && rest == s[k..]
    ensures HasSlot(s, n) <==> SlotAt(s, 0, n) || HasSlot(rest, n)
  {
    if HasSlot(rest, n) {
      var i: nat :| SlotAt(rest, i, n);
      SlotLater(s, k, i + k, n);
      assert SlotAt(s, i + k, n);
    }
    if HasSlot(s, n) {
      var i: nat :| SlotAt(s, i, n);
      if i > 0 {
        LaterSlot(s, k, i, n);
        assert SlotAt(rest, i - k, n);
      }
    }
  }

  lemma LaterSlot(s: string, k: nat, i: nat, n: string)
    requires s != "" && k == FirstPart(s) && SlotAt(s, i, n) && i > 0
    ensures k <= i && SlotAt(s[k..], i - k, n)
  {
    NoSlotInside(s, WordRun(s[1..]), k, i, n);
    SlotLater(s, k, i, n);
  }

  lemma NoSlotInside(s: string, w: string, k: nat, i: nat, n: string)
    requires s != "" && w == WordRun(s[1..]) && SlotAt(s, i, n) && i > 0 && k == FirstPart(s)
    ensures k <= i
  {
    assert forall j :: 0 <= j < |w| ==> s[1 + j] == w[j] && w[j] in w;
  }

  // ----- accepted paths

  /** A placeholder starts here. */
  ghost predicate OpensSlot(s: string, i: nat) {
    exists n: string :: SlotAt(s, i, n)
  }

  ghost predicate ClosesSlot(s: string, i: nat) {
    exists j: nat, n: string :: SlotAt(s, j, n) && j + 1 + |n| == i
  }

  /** Every brace belongs to a placeholder. */
  ghost predicate BracesFit(s: string) {
    forall i: nat | i < |s| :: (s[i] == '{' ==> OpensSlot(s, i)) && (s[i] == '}' ==> ClosesSlot(s, i))
  }

  lemma {:induction false} CountAppend(a: string, b: string, c: char)
    ensures Routes.Count(a + b, c) == Routes.Count(a, c) + Routes.Count(b, c)
  {
    if a == "" {
      assert a + b == b;
    } else {
      assert (a + b)[1..] == a[1..] + b;
      CountAppend(a[1..], b, c);
    }
  }

  lemma {:induction false} WordHasNoBrace(w: string)
    requires forall c | c in w :: IsWord(c)
    ensures Routes.Count(w, '{') == 0 == Routes.Count(w, '}')
  {
    if w != "" {
      assert w[0] in w;
      WordHasNoBrace(w[1..]);
    }
  }

  lemma SlotHasTwoBraces(s: string, w: string)
    requires SlotAt(s, 0, w)
    ensures Routes.Count(s, '{') == 1 + Routes.Count(s[2 + |w|..], '{')
    ensures Routes.Count(s, '}') == 1 + Routes.Count(s[2 + |w|..], '}')
  {
    var rest := s[2 + |w|..];
    assert s == "{" + (w + ("}" + rest));
    WordHasNoBrace(w);
    CountsOfSlot(w, rest, '{');
    CountsOfSlot(w, rest, '}');
  }

  lemma CountsOfSlot(w: string, rest: string, c: char)
    requires c == '{' || c == '}'
    requires Routes.Count(w, c) == 0
    ensures Routes.Count("{" + (w + ("}" + rest)), c) == 1 + Routes.Count(rest, c)
  {
    CountAppend("{", w + ("}" + rest), c);
    CountAppend(w, "}" + rest, c);
    CountAppend("}", rest, c);
    assert Routes.Count("{", c) + Routes.Count("}", c) == 1 by {
      assert "{"[1..] == "" && "}"[1..] == "";
    }
  }

  lemma {:induction false} NamesAreFewer(s: string)
    ensures |RouteNames(s)| <= Routes.Count(s, '{') && |RouteNames(s)| <= Routes.Count(s, '}')
    decreases |s|
  {
    if s != "" {
      var k := FirstPart(s);
      NamesAreFewer(s[k..]);
      SlotIsRead(s, WordRun(s[1..]));
      if k > 1 {
        SlotHasTwoBraces(s, WordRun(s[1..]));
      }
    }
  }

  lemma FitsLater(s: string, k: nat)
    requires s != "" && k == FirstPart(s) && (k == 1 ==> s[0] != '{' && s[0] != '}')
    ensures BracesFit(s) <==> BracesFit(s[k..])
  {
    forall i: nat | k <= i < |s| ensures OpensSlot(s, i) <==> OpensSlot(s[k..], i - k) {
      OpensLater(s, k, i);
    }
    forall i: nat | k <= i < |s| ensures ClosesSlot(s, i) <==> ClosesSlot(s[k..], i - k) {
      ClosesLater(s, k, i);
    }
    if k > 1 {
      FirstSlotFits(s, k);
    }
    FitsByPlaces(s, k);
  }

  lemma OpensLater(s: string, k: nat, i: nat)
    requires k <= i && k <= |s|
    ensures OpensSlot(s, i) <==> OpensSlot(s[k..], i - k)
  {
    if OpensSlot(s, i) {
      var n: string :| SlotAt(s, i, n);
      SlotLater(s, k, i, n);
      assert SlotAt(s[k..], i - k, n);
    }
    if OpensSlot(s[k..], i - k) {
      var n: string :| SlotAt(s[k..], i - k, n);
      SlotLater(s, k, i, n);
    }
  }

  lemma ClosesLater(s: string, k: nat, i: nat)
    requires s != "" && k == FirstPart(s) && k <= i < |s| && (k == 1 ==> s[0] != '{')
    ensures ClosesSlot(s, i) <==> ClosesSlot(s[k..], i - k)
  {
    if ClosesSlot(s, i) {
      var j: nat, n: string :| SlotAt(s, j, n) && j + 1 + |n| == i;
      StartsLater(s, k, j, n);
      SlotLater(s, k, j, n);
      assert SlotAt(s[k..], j - k, n);
    }
    if ClosesSlot(s[k..], i - k) {
      var j: nat, n: string :| SlotAt(s[k..], j, n) && j + 1 + |n| == i - k;
      SlotLater(s, k, j + k, n);
      assert SlotAt(s, j + k, n);
    }
  }

  /** A placeholder that ends after the first part starts after it. */
  lemma StartsLater(s: string, k: nat, j: nat, n: string)
    requires s != "" && k == FirstPart(s) && SlotAt(s, j, n) && k <= j + 1 + |n| && (k == 1 ==> s[0] != '{')
    ensures k <= j
  {
    if j == 0 {
      SlotIsRead(s, n);
    } else {
      NoSlotInside(s, WordRun(s[1..]), k, j, n);
    }
  }

  lemma FirstSlotFits(s: string, k: nat)
    requires s != "" && k == FirstPart(s) && k > 1
    ensures forall i: nat | i < k :: (s[i] == '{' ==> OpensSlot(s, i)) && (s[i] == '}' ==> ClosesSlot(s, i))
  {
    var w := WordRun(s[1..]);
    SlotIsRead(s, w);
    assert SlotAt(s, 0, w);
    assert forall j :: 0 <= j < |w| ==> s[1 + j] == w[j] && w[j] in w;
  }

  lemma FitsByPlaces(s: string, k: nat)
    requires k <= |s|
    requires forall i: nat | i < k :: (s[i] == '{' ==> OpensSlot(s, i)) && (s[i] == '}' ==> ClosesSlot(s, i))
    requires forall i: nat | k <= i < |s| :: OpensSlot(s, i) <==> OpensSlot(s[k..], i - k)
    requires forall i: nat | k <= i < |s| :: ClosesSlot(s, i) <==> ClosesSlot(s[k..], i - k)
    ensures BracesFit(s) <==> BracesFit(s[k..])
  {
    if BracesFit(s) {
      forall i: nat | i < |s[k..]|
        ensures (s[k..][i] == '{' ==> OpensSlot(s[k..], i)) && (s[k..][i] == '}' ==> ClosesSlot(s[k..], i))
      {
        assert s[k..][i] == s[i + k] && OpensSlot(s, i + k) == OpensSlot(s[k..], i + k - k);
      }
    }
    if BracesFit(s[k..]) {
      forall i: nat | k <= i < |s|
        ensures (s[i] == '{' ==> OpensSlot(s, i)) && (s[i] == '}' ==> ClosesSlot(s, i))
      {
        assert s[k..][i - k] == s[i];
      }
    }
  }

  predicate Counted(s: string) {
    |RouteNames(s)| == Routes.Count(s, '{') == Routes.Count(s, '}')
  }

  /** Counting names and braces tells whether every brace belongs to a placeholder. */
  lemma {:induction false} BracesAreCounted(s: string)
    ensures Counted(s) <==> BracesFit(s)
    decreases |s|
  {
    if s != "" {
      var k := FirstPart(s);
      BracesAreCounted(s[k..]);
      CountedLater(s, k);
      if k > 1 || (s[0] != '{' && s[0] != '}') {
        FitsLater(s, k);
      } else {
        LooseBrace(s);
      }
    }
  }

  lemma CountedLater(s: string, k: nat)
    requires s != "" && k == FirstPart(s)
    ensures if k > 1 || (s[0] != '{' && s[0] != '}') then Counted(s) <==> Counted(s[k..]) else !Counted(s)
  {
    SlotIsRead(s, WordRun(s[1..]));
    NamesAreFewer(s[k..]);
    if k > 1 {
      SlotHasTwoBraces(s, WordRun(s[1..]));
    }
  }

  lemma LooseBrace(s: string)
    requires s != "" && FirstPart(s) == 1 && (s[0] == '{' || s[0] == '}')
    ensures !BracesFit(s)
  {
    forall n: string ensures !SlotAt(s, 0, n) {
      SlotIsRead(s, n);
    }
    if s[0] == '}' {
      assert !ClosesSlot(s, 0);
    } else {
      assert !OpensSlot(s, 0);
    }
  }

  lemma DistinctUpToCase(names: seq<string>)
    ensures Distinct(Routes.UpperAll(names)) <==> forall i, j :: 0 <= i < j < |names| ==> Upper(names[i]) != Upper(names[j])
  {
  }

  /** Main result on paths. A path is accepted exactly when, without outer whitespace and with everything
      outside placeholders in lower case, it starts with a slash and does not end with one, is not the
      service's own, holds nothing but word characters, slashes, hyphens and braces, every brace belongs to
      a placeholder, and no two placeholders have the same name up to case. */
  lemma AcceptedPathIff(route: string)
    ensures var value := Routes.Shape(Routes.Parts("", Strip(route)), false);
            var r := Routes.Accept(route);
            && (r.Ok? ==> r.value == value)
            && (r.Ok? <==>
                  && |value| >= 2 && value[0] == '/' && value[|value| - 1] != '/'
                  && value != "/base" && !("/base/" <= value)
                  && (forall c | c in value :: IsWord(c) || c in {'/', '{', '}', '-'})
                  && BracesFit(value)
                  && (forall i, j :: 0 <= i < j < |RouteNames(value)| ==>
                        Upper(RouteNames(value)[i]) != Upper(RouteNames(value)[j])))
  {
    var value := Routes.Shape(Routes.Parts("", Strip(route)), false);
    BracesAreCounted(value);
    assert Counted(value) <==> |RouteNames(value)| == Routes.Count(value, '{') && |RouteNames(value)| == Routes.Count(value, '}');
    assert "/" <= value <==> value != "" && value[0] == '/';
    assert (exists c | c in value :: !Routes.IsRouteChar(c))
           <==> !(forall c | c in value :: IsWord(c) || c in {'/', '{', '}', '-'});
    DistinctUpToCase(RouteNames(value));
  }

  /** A bind with this name starts here: a colon that follows no other, and the longest word after it. */
  predicate BindAt(prev: char, s: string, i: nat, n: string) {
    && i < |s| && s[i] == ':' && (if i == 0 then prev else s[i - 1]) != ':'
    && n == WordRun(s[i + 1..]) && IsName(n)
  }

  /** A bind with this name stands somewhere. */
  ghost predicate Marked(prev: char, s: string, n: string) {
    exists i: nat :: BindAt(prev, s, i, n)
  }

  lemma MarkLater(prev: char, s: string, k: nat, i: nat, n: string)
    requires 0 < k <= i && k <= |s|
    ensures BindAt(prev, s, i, n) <==> BindAt(s[k - 1], s[k..], i - k, n)
  {
    if i < |s| {
      assert s[k..][i - k + 1..] == s[i + 1..];
    }
  }

  /** The binds of a text are all its marked names. */
  lemma {:induction false} BindsAreMarked(prev: char, s: string)
    ensures forall n :: n in Binds(prev, s) <==> Marked(prev, s, n)
    decreases |s|
  {
    if s != "" {
      var k := AfterFirst(prev, s);
      BindsAreMarked(s[k - 1], s[k..]);
      forall n ensures n in Binds(prev, s) <==> Marked(prev, s, n) {
        FirstBind(prev, s, n);
        LaterBinds(prev, s, k, s[k - 1], s[k..], n);
      }
    }
  }

  /** Where the search goes on: after the bind that stands first, or after one character. */
  function AfterFirst(prev: char, s: string): (k: nat)
    requires s != ""
    ensures 0 < k <= |s|
  {
    if s[0] == ':' && prev != ':' && IsName(WordRun(s[1..])) then 1 + |WordRun(s[1..])| else 1
  }

  lemma FirstBind(prev: char, s: string, n: string)
    requires s != ""
    ensures var k := AfterFirst(prev, s);
            n in Binds(prev, s) <==> BindAt(prev, s, 0, n) || n in Binds(s[k - 1], s[k..])
  {
    var w := WordRun(s[1..]);
    if AtBind(prev, s) {
      BindFirst(prev, s, w);
      assert s[|w|] == w[|w| - 1];
    } else {
      BindLater(prev, s);
    }
  }

  lemma LaterBinds(prev: char, s: string, k: nat, last: char, rest: string, n: string)
    requires s != "" && k == AfterFirst(prev, s) && last == s[k - 1] && rest == s[k..]
    ensures Marked(prev, s, n) <==> BindAt(prev, s, 0, n) || Marked(last, rest, n)
  {
    if Marked(last, rest, n) {
      var i: nat :| BindAt(last, rest, i, n);
      MarkLater(prev, s, k, i + k, n);
    }
    if Marked(prev, s, n) {
      var i: nat :| BindAt(prev, s, i, n);
      if i > 0 {
        LaterBind(prev, s, k, i, n);
        assert BindAt(last, rest, i - k, n);
      }
    }
  }

  lemma LaterBind(prev: char, s: string, k: nat, i: nat, n: string)
    requires s != "" && k == AfterFirst(prev, s) && BindAt(prev, s, i, n) && i > 0
    ensures k <= i && BindAt(s[k - 1], s[k..], i - k, n)
  {
    NoBindInside(prev, s, WordRun(s[1..]), k, i, n);
    MarkLater(prev, s, k, i, n);
  }

  lemma NoBindInside(prev: char, s: string, w: string, k: nat, i: nat, n: string)
    requires s != "" && w == WordRun(s[1..]) && BindAt(prev, s, i, n) && i > 0
    requires k == 1 || k == 1 + |w|
    ensures k <= i
  {
    assert forall j :: 0 <= j < |w| ==> s[1 + j] == w[j] && w[j] in w;
  }

  // ----- accepted configurations

  /** A definition that may be published on its own. */
  ghost predicate Sound(runtime: Runtime, d: Definition) {
    && d.kind in {"string", "integer", "float", "boolean", "date", "datetime"}
    && d.source in {"path", "query", "body"}
    && IsName(d.name) && !Withheld(Upper(d.name))
    && (d.rule.Some? && d.rule.value != "" ==> runtime.compiles(d.rule.value))
    && (d.default.Some? && d.default.value != "" ==> exists v :: Fits(runtime, d, Str(d.default.value), v))
  }

  /** The names of the paging options, and those of the service itself. */
  predicate Withheld(name: string) {
    name in {"LIMIT", "OFFSET", "ORDER_BY"} || "__F2A_" <= name
  }

  lemma ReservedIsWithheld(name: string)
    ensures IsReserved(name) <==> Withheld(name)
  {
    assert RESERVED[0] == "LIMIT" && RESERVED[1] == "OFFSET" && RESERVED[2] == "ORDER_BY";
  }

  lemma SoundIsChecked(runtime: Runtime, d: Definition)
    ensures CheckDefinition(runtime, d).None? <==> Sound(runtime, d)
  {
    ReservedIsWithheld(Upper(d.name));
    KnownKinds(d.kind);
    KnownSources(d.source);
    if Given(d.default) {
      var converted := Convert(runtime, Str(d.default.value), d.kind);
      if converted.Some? && PassesRule(runtime, d.rule, converted.value) {
        assert Fits(runtime, d, Str(d.default.value), converted.value);
      }
    }
  }

  lemma KnownKinds(kind: string)
    ensures kind in TYPES <==> kind in {"string", "integer", "float", "boolean", "date", "datetime"}
  {
    assert TYPES[0] == "string" && TYPES[1] == "integer" && TYPES[2] == "float" && TYPES[3] == "boolean";
    assert TYPES[4] == "date" && TYPES[5] == "datetime";
  }

  lemma KnownSources(source: string)
    ensures source in SOURCES <==> source in {"path", "query", "body"}
  {
    assert SOURCES[0] == "path" && SOURCES[1] == "query" && SOURCES[2] == "body";
  }

  lemma {:induction false} AllSound(runtime: Runtime, defs: seq<Definition>)
    ensures CheckDefinitions(runtime, defs).None? <==> forall d | d in defs :: Sound(runtime, d)
  {
    if defs != [] {
      SoundIsChecked(runtime, defs[0]);
      AllSound(runtime, defs[1..]);
      assert forall d :: d in defs <==> d == defs[0] || d in defs[1..];
    }
  }

  predicate Defines(defs: seq<Definition>, name: string) {
    exists d | d in defs :: Upper(d.name) == Upper(name)
  }

  predicate DefinesPath(defs: seq<Definition>, name: string) {
    exists d | d in defs :: d.source == "path" && Upper(d.name) == Upper(name)
  }

  /** The definitions of the path are exactly its placeholders, and required. */
  predicate MatchesPath(route: string, defs: seq<Definition>) {
    && (forall n | n in RouteNames(route) :: DefinesPath(defs, n))
    && (forall d | d in defs && d.source == "path" :: d.required && Names(RouteNames(route), Upper(d.name)))
  }

  /** Every bind that is not withheld has a definition. */
  predicate CoversBinds(sql: string, defs: seq<Definition>) {
    forall n | n in BindNames(sql) && !Withheld(Upper(n)) :: Defines(defs, n)
  }

  lemma DefinedNames(defs: seq<Definition>, name: string)
    ensures Defines(defs, name) <==> Upper(name) in CanonicalNames(defs)
  {
    NamesOfDefinitions(defs);
    assert Upper(name) in CanonicalNames(defs) <==> Upper(name) in set n | n in CanonicalNames(defs);
  }

  lemma NothingMissing(route: string, sql: string, name: string, defs: seq<Definition>)
    ensures MissingNames(Detect(route, sql, name), CanonicalNames(defs)) == []
            <==> (forall n | n in RouteNames(route) :: Defines(defs, n)) && CoversBinds(sql, defs)
  {
    var detected := Detect(route, sql, name);
    DetectionIsExact(route, sql, name);
    DetectionFindsBinds(route, sql, name);
    forall n ensures Defines(defs, n) <==> Upper(n) in CanonicalNames(defs) {
      DefinedNames(defs, n);
    }
    forall n ensures IsReserved(n) <==> Withheld(n) {
      ReservedIsWithheld(n);
    }
    if MissingNames(detected, CanonicalNames(defs)) == [] {
      forall n | Upper(n) in NamesOf(detected) ensures Defines(defs, n) {
        NameIsDefined(detected, Upper(n), CanonicalNames(defs));
      }
    } else {
      var d :| d in detected && d.name !in CanonicalNames(defs);
    }
  }

  lemma PathMatches(route: string, name: string, defs: seq<Definition>)
    ensures (set d | d in Detect(route, "", name) :: d.name) == PathNames(defs)
            <==> && (forall n | n in RouteNames(route) :: DefinesPath(defs, n))
                 && (forall d | d in defs && d.source == "path" :: Names(RouteNames(route), Upper(d.name)))
  {
    var detected := Detect(route, "", name);
    var found := set d | d in detected :: d.name;
    DetectionIsExact(route, "", name);
    NoBinds();
    forall m ensures m in found <==> Names(RouteNames(route), m) {
      if n :| n in RouteNames(route) && Upper(n) == m {
        var k :| 0 <= k < |detected| && NamesOf(detected)[k] == m;
        assert detected[k] in detected && detected[k].name == m;
      }
    }
    if found == PathNames(defs) {
      forall n | n in RouteNames(route) ensures DefinesPath(defs, n) {
        assert Names(RouteNames(route), Upper(n)) && Upper(n) in PathNames(defs);
      }
      forall d | d in defs && d.source == "path" ensures Names(RouteNames(route), Upper(d.name)) {
        assert Upper(d.name) in PathNames(defs);
      }
    }
    if (forall n | n in RouteNames(route) :: DefinesPath(defs, n))
       && (forall d | d in defs && d.source == "path" :: Names(RouteNames(route), Upper(d.name)))
    {
      forall m ensures m in found <==> m in PathNames(defs) {
        if n :| n in RouteNames(route) && Upper(n) == m {
          assert DefinesPath(defs, n);
        }
      }
    }
  }

  predicate DifferentNames(defs: seq<Definition>) {
    forall i, j :: 0 <= i < j < |defs| ==> Upper(defs[i].name) != Upper(defs[j].name)
  }

  lemma ParametersCheckedIff(runtime: Runtime, route: string, sql: string, name: string, defs: seq<Definition>)
    ensures CheckParameters(runtime, route, sql, name, defs).None?
            <==> && CheckDefinitions(runtime, defs).None? && DifferentNames(defs)
                 && MissingNames(Detect(route, sql, name), CanonicalNames(defs)) == []
                 && (set d | d in Detect(route, "", name) :: d.name) == PathNames(defs)
                 && !HasOptionalPath(defs) && !(name == "GET" && HasBody(defs))
  {
  }

  lemma MatchesAndCovers(route: string, sql: string, defs: seq<Definition>)
    ensures MatchesPath(route, defs) && CoversBinds(sql, defs)
            <==> && (forall n | n in RouteNames(route) :: Defines(defs, n)) && CoversBinds(sql, defs)
                 && (forall n | n in RouteNames(route) :: DefinesPath(defs, n))
                 && (forall d | d in defs && d.source == "path" :: Names(RouteNames(route), Upper(d.name)))
                 && !HasOptionalPath(defs)
  {
    if MatchesPath(route, defs) {
      forall n | n in RouteNames(route) ensures Defines(defs, n) {
        assert DefinesPath(defs, n);
      }
    }
  }

  /** What the definitions must satisfy. */
  ghost predicate Publishable(runtime: Runtime, route: string, sql: string, name: string, defs: seq<Definition>) {
    && (forall d | d in defs :: Sound(runtime, d)) && DifferentNames(defs)
    && MatchesPath(route, defs) && CoversBinds(sql, defs)
    && (name == "GET" ==> forall d | d in defs :: d.source != "body")
  }

  /** Main result. A configuration may be published exactly when the policy accepts its statement; every
      definition is sound; no two share a name up to case; those of the path are its placeholders and
      required; every bind that is not withheld has a definition; and a GET has none for a body. */
  lemma AcceptedConfigurationIff(
    runtime: Runtime, route: string, sql: string, httpMethod: string, defs: seq<Definition>)
    ensures CheckConfiguration(runtime, route, sql, httpMethod, defs).None?
            <==> Validation.Validate(sql, Upper(httpMethod)).Valid?
                 && Publishable(runtime, route, sql, Upper(httpMethod), defs)
  {
    var name := Upper(httpMethod);
    AllSound(runtime, defs);
    NothingMissing(route, sql, name, defs);
    PathMatches(route, name, defs);
    MatchesAndCovers(route, sql, defs);
    ParametersCheckedIff(runtime, route, sql, name, defs);
    CheckedInTwoParts(runtime, route, sql, httpMethod, defs);
  }

  lemma CheckedInTwoParts(
    runtime: Runtime, route: string, sql: string, httpMethod: string, defs: seq<Definition>)
    ensures CheckConfiguration(runtime, route, sql, httpMethod, defs).None?
            <==> Validation.Validate(sql, Upper(httpMethod)).Valid?
                 && CheckParameters(runtime, route, sql, Upper(httpMethod), defs).None?
  {
  }
}

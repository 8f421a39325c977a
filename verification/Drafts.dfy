/** Merging detected parameters into the drafts of the route editor. */
module Drafts {
  import opened Wrappers
  import opened Text
  import opened Parameters

  datatype Draft = Draft(
    id: Option<nat>,
    name: Option<string>,
    kind: string,
    source: string,
    default: Option<string>,
    required: bool,
    description: Option<string>,
    rule: Option<string>,
    position: nat,
    detected: bool)

  /** The canonical name; a missing one is spelled out as Python does. */
  function Canonical(name: Option<string>): string {
    match name
    case None => "NONE"
    case Some(s) => Upper(s)
  }

  predicate Bears(d: Draft, name: string) {
    Given(d.name) && Upper(d.name.value) == name
  }

  /** The last draft that bears the name. */
  function Find(drafts: seq<Draft>, name: string): (k: Option<nat>)
    ensures k.Some? ==> k.value < |drafts| && Bears(drafts[k.value], name)
    ensures k.Some? ==> forall j :: k.value < j < |drafts| ==> !Bears(drafts[j], name)
    ensures k.None? ==> forall j :: 0 <= j < |drafts| ==> !Bears(drafts[j], name)
  {
    if drafts == [] then None
    else if Bears(drafts[|drafts| - 1], name) then Some(|drafts| - 1)
    else Find(drafts[..|drafts| - 1], name)
  }

  function NewDraft(c: Detected): Draft {
    Draft(None, Some(Upper(c.name)), "string", c.source, None, true, None, None, 0, false)
  }

  /** A path candidate forces its draft to be a required path parameter. */
  function Adopt(d: Draft, c: Detected): Draft {
    if c.source == "path" then d.(source := "path", required := true) else d
  }

  function MergeOne(drafts: seq<Draft>, c: Detected, suppressed: set<string>): seq<Draft> {
    match Find(drafts, Upper(c.name))
    case Some(k) => drafts[k := Adopt(drafts[k], c)]
    case None => if Upper(c.name) in suppressed then drafts else drafts + [Adopt(NewDraft(c), c)]
  }

  function MergeAll(drafts: seq<Draft>, detected: seq<Detected>, suppressed: set<string>): seq<Draft>
    decreases |detected|
  {
    if detected == [] then drafts
    else MergeAll(MergeOne(drafts, detected[0], suppressed), detected[1..], suppressed)
  }

  function ActiveNames(detected: seq<Detected>): set<string> {
    set c | c in detected :: Upper(c.name)
  }

  function FinishOne(d: Draft, position: nat, active: set<string>): Draft {
    d.(name := if Given(d.name) then Some(Upper(d.name.value)) else d.name,
       position := position,
       detected := Canonical(d.name) in active)
  }

  function Finish(drafts: seq<Draft>, active: set<string>): (r: seq<Draft>)
    ensures |r| == |drafts|
    ensures forall k :: 0 <= k < |r| ==> r[k] == FinishOne(drafts[k], k + 1, active)
  {
    seq(|drafts|, k requires 0 <= k < |drafts| => FinishOne(drafts[k], k + 1, active))
  }

  function Suppressed(suppressed: set<string>, detected: seq<Detected>): set<string> {
    (set n | n in suppressed :: Upper(n)) * ActiveNames(detected)
  }

  function Merge(drafts: seq<Draft>, detected: seq<Detected>, suppressed: set<string>): (seq<Draft>, set<string>) {
    var kept := Suppressed(suppressed, detected);
    (Finish(MergeAll(drafts, detected, kept), ActiveNames(detected)), kept)
  }

  /** The merge as the service runs it: an index by name, updates in place, then a numbering pass. */
  method MergeDrafts(parameters: seq<Draft>, detected: seq<Detected>, suppressed: set<string>)
    returns (drafts: seq<Draft>, kept: set<string>)
    requires forall c | c in detected :: c.name != ""
    ensures (drafts, kept) == Merge(parameters, detected, suppressed)
  {
    var active := ActiveNames(detected);
    kept := (set n | n in suppressed :: Upper(n)) * active;
    drafts := AdoptDetected(parameters, detected, kept);
    ghost var merged := drafts;
    for i := 0 to |drafts|
      invariant |drafts| == |merged|
      invariant forall k :: 0 <= k < |drafts| ==>
        drafts[k] == if k < i then FinishOne(merged[k], k + 1, active) else merged[k]
    {
      drafts := drafts[i := FinishOne(drafts[i], i + 1, active)];
    }
    assert drafts == Finish(merged, active);
  }

  /** The drafts by name; the last one wins. */
  method IndexByName(drafts: seq<Draft>) returns (byName: map<string, nat>)
    ensures forall n :: Get(byName, n) == Find(drafts, n)
  {
    byName := map[];
    for i := 0 to |drafts|
      invariant forall n :: Get(byName, n) == Find(drafts[..i], n)
    {
      assert drafts[..i + 1][..i] == drafts[..i];
      if Given(drafts[i].name) {
        byName := byName[Upper(drafts[i].name.value) := i];
      }
    }
    assert drafts[..|drafts|] == drafts;
  }

  method AdoptDetected(parameters: seq<Draft>, detected: seq<Detected>, kept: set<string>) returns (drafts: seq<Draft>)
    requires forall c | c in detected :: c.name != ""
    ensures drafts == MergeAll(parameters, detected, kept)
  {
    drafts := parameters;
    var byName := IndexByName(drafts);
    for i := 0 to |detected|
      invariant forall n :: Get(byName, n) == Find(drafts, n)
      invariant MergeAll(drafts, detected[i..], kept) == MergeAll(parameters, detected, kept)
    {
      assert detected[i..][0] == detected[i] && detected[i..][1..] == detected[i + 1..];
      assert detected[i] in detected;
      drafts, byName := AdoptOne(drafts, byName, detected[i], kept);
    }
  }

  /** One candidate: adopted by the draft that bears its name, or appended unless suppressed. */
  method AdoptOne(before: seq<Draft>, index: map<string, nat>, c: Detected, kept: set<string>)
    returns (drafts: seq<Draft>, byName: map<string, nat>)
    requires c.name != "" && forall n :: Get(index, n) == Find(before, n)
    ensures drafts == MergeOne(before, c, kept)
    ensures forall n :: Get(byName, n) == Find(drafts, n)
  {
    drafts, byName := before, index;
    var name := Upper(c.name);
    assert Get(index, name) == Find(before, name);
    if name in byName {
      var k := byName[name];
      drafts := drafts[k := Adopt(drafts[k], c)];
      UpdateKeepsIndex(before, k, c);
    } else if name !in kept {
      drafts := drafts + [Adopt(NewDraft(c), c)];
      byName := byName[name := |drafts| - 1];
      AppendExtendsIndex(before, c);
    }
  }

  lemma {:induction false} FindIsUnique(drafts: seq<Draft>, name: string, k: Option<nat>)
    requires k.Some? ==> k.value < |drafts| && Bears(drafts[k.value], name)
    requires k.Some? ==> forall j :: k.value < j < |drafts| ==> !Bears(drafts[j], name)
    requires k.None? ==> forall j :: 0 <= j < |drafts| ==> !Bears(drafts[j], name)
    ensures Find(drafts, name) == k
  {
  }

  lemma {:induction false} UpdateKeepsIndex(drafts: seq<Draft>, k: nat, c: Detected)
    requires k < |drafts|
    ensures forall n :: Find(drafts[k := Adopt(drafts[k], c)], n) == Find(drafts, n)
  {
    forall n ensures Find(drafts[k := Adopt(drafts[k], c)], n) == Find(drafts, n) {
      FindIsUnique(drafts[k := Adopt(drafts[k], c)], n, Find(drafts, n));
    }
  }

  lemma {:induction false} AppendExtendsIndex(drafts: seq<Draft>, c: Detected)
    ensures forall n :: Find(drafts + [Adopt(NewDraft(c), c)], n)
                        == if Given(NewDraft(c).name) && n == Upper(c.name) then Some(|drafts|) else Find(drafts, n)
  {
    var d := Adopt(NewDraft(c), c);
    UpperIsIdempotent(c.name);
    forall n ensures Find(drafts + [d], n) == if Bears(d, n) then Some(|drafts|) else Find(drafts, n) {
      FindIsUnique(drafts + [d], n, if Bears(d, n) then Some(|drafts|) else Find(drafts, n));
    }
  }

  // ----- what the merge keeps

  /** The same draft up to what a path candidate may force. */
  predicate SameUpToPath(d: Draft, e: Draft) {
    && e == d.(source := e.source, required := e.required)
    && ((e.source == d.source && e.required == d.required) || (e.source == "path" && e.required))
  }

  predicate Holds(drafts: seq<Draft>, c: Detected) {
    match Find(drafts, Upper(c.name))
    case None => false
    case Some(k) => c.source == "path" ==> drafts[k].source == "path" && drafts[k].required
  }

  /** A candidate is settled when its draft exists and fits, or when it is suppressed. */
  predicate Settled(drafts: seq<Draft>, c: Detected, suppressed: set<string>) {
    Holds(drafts, c) || (Find(drafts, Upper(c.name)).None? && Upper(c.name) in suppressed)
  }

  lemma MergeOneSettles(drafts: seq<Draft>, c: Detected, suppressed: set<string>)
    requires c.name != ""
    ensures Settled(MergeOne(drafts, c, suppressed), c, suppressed)
  {
    match Find(drafts, Upper(c.name))
    case Some(k) =>
      UpdateKeepsIndex(drafts, k, c);
      assert Find(drafts[k := Adopt(drafts[k], c)], Upper(c.name)) == Some(k);
    case None =>
      if Upper(c.name) !in suppressed {
        AppendExtendsIndex(drafts, c);
        assert Find(drafts + [Adopt(NewDraft(c), c)], Upper(c.name)) == Some(|drafts|);
      }
  }

  lemma MergeOneKeepsSettled(
    drafts: seq<Draft>, c: Detected, suppressed: set<string>, other: Detected)
    requires c.name != "" && Settled(drafts, other, suppressed)
    ensures Settled(MergeOne(drafts, c, suppressed), other, suppressed)
  {
    match Find(drafts, Upper(c.name))
    case Some(k) => UpdateKeepsIndex(drafts, k, c);
    case None => AppendExtendsIndex(drafts, c);
  }

  lemma {:induction false} MergeAllKeepsSettled(
    drafts: seq<Draft>, detected: seq<Detected>, suppressed: set<string>, other: Detected)
    requires (forall c | c in detected :: c.name != "") && Settled(drafts, other, suppressed)
    ensures Settled(MergeAll(drafts, detected, suppressed), other, suppressed)
    decreases |detected|
  {
    if detected != [] {
      MergeOneKeepsSettled(drafts, detected[0], suppressed, other);
      MergeAllKeepsSettled(MergeOne(drafts, detected[0], suppressed), detected[1..], suppressed, other);
    }
  }

  lemma {:induction false} MergeAllSettles(drafts: seq<Draft>, detected: seq<Detected>, suppressed: set<string>)
    requires forall c | c in detected :: c.name != ""
    ensures forall c | c in detected :: Settled(MergeAll(drafts, detected, suppressed), c, suppressed)
    decreases |detected|
  {
    if detected != [] {
      var next := MergeOne(drafts, detected[0], suppressed);
      MergeOneSettles(drafts, detected[0], suppressed);
      MergeAllKeepsSettled(next, detected[1..], suppressed, detected[0]);
      MergeAllSettles(next, detected[1..], suppressed);
      assert forall c | c in detected :: c == detected[0] || c in detected[1..];
    }
  }

  /** Finishing renames and renumbers, but every name still finds the same draft. */
  lemma {:induction false} FinishKeepsIndex(drafts: seq<Draft>, active: set<string>)
    ensures forall n :: Find(Finish(drafts, active), n) == Find(drafts, n)
  {
    var r := Finish(drafts, active);
    forall n ensures Find(r, n) == Find(drafts, n) {
      forall k | 0 <= k < |drafts| ensures Bears(r[k], n) <==> Bears(drafts[k], n) {
        if Given(drafts[k].name) {
          UpperIsIdempotent(drafts[k].name.value);
        }
      }
      FindIsUnique(r, n, Find(drafts, n));
    }
  }

  lemma FinishIsIdempotent(drafts: seq<Draft>, active: set<string>)
    ensures Finish(Finish(drafts, active), active) == Finish(drafts, active)
  {
    forall k | 0 <= k < |drafts|
      ensures FinishOne(FinishOne(drafts[k], k + 1, active), k + 1, active) == FinishOne(drafts[k], k + 1, active)
    {
      if drafts[k].name.Some? {
        UpperIsIdempotent(drafts[k].name.value);
      }
    }
  }

  /** Candidates that are all settled leave the drafts alone. */
  lemma {:induction false} SettledIsFixed(drafts: seq<Draft>, detected: seq<Detected>, suppressed: set<string>)
    requires forall c | c in detected :: Settled(drafts, c, suppressed)
    ensures MergeAll(drafts, detected, suppressed) == drafts
    decreases |detected|
  {
    if detected != [] {
      assert Settled(drafts, detected[0], suppressed);
      assert MergeOne(drafts, detected[0], suppressed) == drafts;
      SettledIsFixed(drafts, detected[1..], suppressed);
    }
  }

  lemma SuppressedIsFixed(suppressed: set<string>, detected: seq<Detected>)
    ensures Suppressed(Suppressed(suppressed, detected), detected) == Suppressed(suppressed, detected)
  {
    var once := Suppressed(suppressed, detected);
    forall n | n in once ensures Upper(n) == n {
      var m :| m in suppressed && Upper(m) == n;
      UpperIsIdempotent(m);
    }
    assert (set n | n in once :: Upper(n)) == once;
  }

  /** Merging the result again changes nothing. */
  lemma MergeIsIdempotent(drafts: seq<Draft>, detected: seq<Detected>, suppressed: set<string>)
    requires forall c | c in detected :: c.name != ""
    ensures var once := Merge(drafts, detected, suppressed);
            Merge(once.0, detected, once.1) == once
  {
    var kept := Suppressed(suppressed, detected);
    var active := ActiveNames(detected);
    var merged := MergeAll(drafts, detected, kept);
    MergeAllSettles(drafts, detected, kept);
    FinishKeepsIndex(merged, active);
    SuppressedIsFixed(suppressed, detected);
    forall c | c in detected ensures Settled(Finish(merged, active), c, kept) {
      assert Settled(merged, c, kept);
    }
    SettledIsFixed(Finish(merged, active), detected, kept);
    FinishIsIdempotent(merged, active);
  }

  lemma {:induction false} MergeAllGrows(drafts: seq<Draft>, detected: seq<Detected>, suppressed: set<string>)
    ensures var r := MergeAll(drafts, detected, suppressed);
            && |drafts| <= |r|
            && (forall k :: 0 <= k < |drafts| ==> SameUpToPath(drafts[k], r[k]))
    decreases |detected|
  {
    if detected != [] {
      MergeAllGrows(MergeOne(drafts, detected[0], suppressed), detected[1..], suppressed);
    }
  }

  /** What is appended carries the name of a candidate that had no draft and was not suppressed, and
      no two appended drafts share a name. */
  ghost predicate AppendedFrom(
    drafts: seq<Draft>, start: nat, detected: seq<Detected>, suppressed: set<string>)
    requires start <= |drafts|
  {
    forall k :: start <= k < |drafts| ==>
      && drafts[k].id.None? && Given(drafts[k].name)
      && (exists c | c in detected :: drafts[k].name == Some(Upper(c.name)))
      && drafts[k].name.value !in suppressed
      && (forall j :: 0 <= j < k ==> !Bears(drafts[j], drafts[k].name.value))
  }

  lemma MergeOneAppends(
    drafts: seq<Draft>, start: nat, c: Detected, all: seq<Detected>, suppressed: set<string>)
    requires start <= |drafts| && AppendedFrom(drafts, start, all, suppressed)
    requires c.name != "" && c in all
    ensures |drafts| <= |MergeOne(drafts, c, suppressed)|
    ensures AppendedFrom(MergeOne(drafts, c, suppressed), start, all, suppressed)
  {
    var r := MergeOne(drafts, c, suppressed);
    forall k | start <= k < |drafts|
      ensures r[k].name == drafts[k].name && r[k].id == drafts[k].id
      ensures forall j :: 0 <= j < k ==> r[j].name == drafts[j].name
    {
    }
  }

  lemma {:induction false} MergeAllAppends(
    drafts: seq<Draft>, start: nat, detected: seq<Detected>, all: seq<Detected>, suppressed: set<string>)
    requires start <= |drafts| && AppendedFrom(drafts, start, all, suppressed)
    requires forall c | c in detected :: c.name != "" && c in all
    ensures |drafts| <= |MergeAll(drafts, detected, suppressed)|
    ensures AppendedFrom(MergeAll(drafts, detected, suppressed), start, all, suppressed)
    decreases |detected|
  {
    if detected != [] {
      assert detected[0] in detected;
      MergeOneAppends(drafts, start, detected[0], all, suppressed);
      MergeAllAppends(MergeOne(drafts, detected[0], suppressed), start, detected[1..], all, suppressed);
    }
  }

  /** Every draft stays where it was, with everything the user entered. */
  lemma MergeKeepsDrafts(
    drafts: seq<Draft>, detected: seq<Detected>, suppressed: set<string>, k: nat)
    requires k < |drafts|
    ensures k < |Merge(drafts, detected, suppressed).0|
    ensures SameUpToPath(FinishOne(drafts[k], k + 1, ActiveNames(detected)),
                         Merge(drafts, detected, suppressed).0[k])
  {
    var merged := MergeAll(drafts, detected, Suppressed(suppressed, detected));
    MergeAllGrows(drafts, detected, Suppressed(suppressed, detected));
    assert SameUpToPath(drafts[k], merged[k]);
  }

  /** Appended is only what was detected, missing and not suppressed. */
  lemma MergeAppendsMissing(
    drafts: seq<Draft>, detected: seq<Detected>, suppressed: set<string>, k: nat)
    requires forall c | c in detected :: c.name != ""
    requires |drafts| <= k < |Merge(drafts, detected, suppressed).0|
    ensures var (r, kept) := Merge(drafts, detected, suppressed);
            && r[k].id.None? && Given(r[k].name) && r[k].position == k + 1 && r[k].detected
            && r[k].name.value in ActiveNames(detected) - kept
            && forall j :: 0 <= j < |drafts| ==> !Bears(drafts[j], r[k].name.value)
  {
    var kept := Suppressed(suppressed, detected);
    var merged := MergeAll(drafts, detected, kept);
    MergeAllGrows(drafts, detected, kept);
    MergeAllAppends(drafts, |drafts|, detected, detected, kept);
    var c :| c in detected && merged[k].name == Some(Upper(c.name));
    UpperIsIdempotent(c.name);
    forall j | 0 <= j < |drafts| ensures !Bears(drafts[j], merged[k].name.value) {
      assert !Bears(merged[j], merged[k].name.value);
      assert SameUpToPath(drafts[j], merged[j]);
    }
  }

  function DraftNames(drafts: seq<Draft>): (r: seq<string>)
    ensures |r| == |drafts|
    ensures forall k :: 0 <= k < |r| ==> r[k] == Canonical(drafts[k].name)
  {
    seq(|drafts|, k requires 0 <= k < |drafts| => Canonical(drafts[k].name))
  }

  /** With nothing suppressed, the result passes the check for missing parameters. */
  lemma {:induction false} MergeLeavesNothingMissing(drafts: seq<Draft>, detected: seq<Detected>)
    requires forall c | c in detected :: c.name != "" && Upper(c.name) == c.name
    ensures MissingNames(detected, DraftNames(Merge(drafts, detected, {}).0)) == []
  {
    var kept := Suppressed({}, detected);
    assert kept == {};
    var merged := MergeAll(drafts, detected, kept);
    var r := Finish(merged, ActiveNames(detected));
    MergeAllSettles(drafts, detected, kept);
    FinishKeepsIndex(merged, ActiveNames(detected));
    forall c | c in detected ensures c.name in DraftNames(r) {
      assert Settled(merged, c, kept);
      var k := Find(r, c.name).value;
      assert DraftNames(r)[k] == c.name;
    }
  }
}

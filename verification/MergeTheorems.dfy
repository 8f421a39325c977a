/** The result of a merge, told from the drafts, the detected parameters and the suppressed names. */
module MergeTheorems {
  import opened Wrappers
  import opened Text
  import opened Parameters
  import opened Drafts

  predicate Bore(drafts: seq<Draft>, name: string) {
    exists k :: 0 <= k < |drafts| && Bears(drafts[k], name)
  }

  /** The user suppressed this name, in any letter case. */
  predicate Hidden(suppressed: set<string>, name: string) {
    exists n | n in suppressed :: Upper(n) == name
  }

  predicate Found(detected: seq<Detected>, name: string) {
    exists c | c in detected :: Upper(c.name) == name
  }

  /** What was found in the path decides that the draft is a required path parameter. */
  predicate FoundInPath(detected: seq<Detected>, d: Draft) {
    exists c | c in detected :: c.source == "path" && Bears(d, Upper(c.name))
  }

  /** A draft of the user after the merge: everything entered is kept, the name is canonical, the place
      is counted from one, and only what was found in the path is forced. */
  predicate Kept(d: Draft, r: Draft, position: nat, detected: seq<Detected>) {
    && r.id == d.id && r.kind == d.kind && r.default == d.default && r.description == d.description && r.rule == d.rule
    && r.name == (if Given(d.name) then Some(Upper(d.name.value)) else d.name)
    && r.position == position
    && (r.detected <==> Found(detected, if d.name.Some? then Upper(d.name.value) else "NONE"))
    && ((r.source == d.source && r.required == d.required)
        || (r.source == "path" && r.required && FoundInPath(detected, d)))
  }

  /** A draft that the merge adds for a detected parameter. */
  predicate Added(r: Draft, c: Detected, position: nat) {
    r == Draft(None, Some(Upper(c.name)), "string", c.source, None, true, None, None, position, true)
  }

  // ----- what is forced

  /** Unchanged, or forced by a path candidate that it bears. */
  predicate Forced(d: Draft, r: Draft, detected: seq<Detected>) {
    r == d || (r == d.(source := "path", required := true) && FoundInPath(detected, d))
  }

  lemma ForcedMore(d: Draft, r: Draft, c: Detected, all: seq<Detected>)
    requires Forced(d, r, all) && c in all && Bears(r, Upper(c.name))
    ensures Forced(d, Adopt(r, c), all)
  {
    assert Bears(d, Upper(c.name));
  }

  lemma {:induction false} MergeAllForces(
    start: seq<Draft>, drafts: seq<Draft>, detected: seq<Detected>, all: seq<Detected>, suppressed: set<string>)
    requires |start| <= |drafts| && forall k :: 0 <= k < |start| ==> Forced(start[k], drafts[k], all)
    requires forall c | c in detected :: c in all
    ensures var r := MergeAll(drafts, detected, suppressed);
            |start| <= |r| && forall k :: 0 <= k < |start| ==> Forced(start[k], r[k], all)
    decreases |detected|
  {
    if detected != [] {
      var c := detected[0];
      var next := MergeOne(drafts, c, suppressed);
      forall k | 0 <= k < |start| ensures Forced(start[k], next[k], all) {
        if Find(drafts, Upper(c.name)) == Some(k) {
          ForcedMore(start[k], drafts[k], c, all);
        }
      }
      MergeAllForces(start, next, detected[1..], all, suppressed);
    }
  }

  // ----- what is added

  predicate Fresh(d: Draft, c: Detected) {
    d == Draft(None, Some(Upper(c.name)), "string", c.source, None, true, None, None, 0, false)
  }

  predicate AddedFrom(drafts: seq<Draft>, start: nat, all: seq<Detected>)
    requires start <= |drafts|
  {
    forall k :: start <= k < |drafts| ==> exists c | c in all :: Fresh(drafts[k], c)
  }

  lemma AdoptedIsFresh(d: Draft, c: Detected, all: seq<Detected>)
    requires c in all && Bears(d, Upper(c.name)) && exists e | e in all :: Fresh(d, e)
    ensures exists e | e in all :: Fresh(Adopt(d, c), e)
  {
    var e :| e in all && Fresh(d, e);
    UpperIsIdempotent(e.name);
    assert Fresh(Adopt(d, c), if c.source == "path" then c else e);
  }

  lemma {:induction false} MergeAllAdds(
    drafts: seq<Draft>, start: nat, detected: seq<Detected>, all: seq<Detected>, suppressed: set<string>)
    requires start <= |drafts| && AddedFrom(drafts, start, all) && forall c | c in detected :: c in all
    ensures var r := MergeAll(drafts, detected, suppressed); start <= |r| && AddedFrom(r, start, all)
    decreases |detected|
  {
    if detected != [] {
      var c := detected[0];
      var next := MergeOne(drafts, c, suppressed);
      forall k | start <= k < |next| ensures exists e | e in all :: Fresh(next[k], e) {
        if Find(drafts, Upper(c.name)) == Some(k) {
          AdoptedIsFresh(drafts[k], c, all);
        } else if k == |drafts| {
          assert Fresh(next[k], c);
        }
      }
      MergeAllAdds(next, start, detected[1..], all, suppressed);
    }
  }

  // ----- the result

  lemma ActiveIsFound(detected: seq<Detected>)
    ensures forall n :: n in ActiveNames(detected) <==> Found(detected, n)
  {
  }

  lemma HiddenIsSuppressed(suppressed: set<string>, detected: seq<Detected>)
    ensures forall n :: n in Suppressed(suppressed, detected) <==> Hidden(suppressed, n) && Found(detected, n)
  {
    ActiveIsFound(detected);
  }

  /** Every draft of the user stays in its place. */
  lemma MergeKeeps(drafts: seq<Draft>, detected: seq<Detected>, suppressed: set<string>, k: nat)
    requires k < |drafts|
    ensures var r := Merge(drafts, detected, suppressed).0; k < |r| && Kept(drafts[k], r[k], k + 1, detected)
  {
    var kept := Suppressed(suppressed, detected);
    MergeAllForces(drafts, drafts, detected, detected, kept);
    ActiveIsFound(detected);
    assert Forced(drafts[k], MergeAll(drafts, detected, kept)[k], detected);
  }

  /** Everything added stands for a detected parameter, is required, and is numbered on. */
  lemma MergeAdds(drafts: seq<Draft>, detected: seq<Detected>, suppressed: set<string>, k: nat)
    requires |drafts| <= k < |Merge(drafts, detected, suppressed).0|
    requires forall c | c in detected :: c.name != ""
    ensures var r := Merge(drafts, detected, suppressed).0; exists c | c in detected :: Added(r[k], c, k + 1)
  {
    var kept := Suppressed(suppressed, detected);
    MergeAllAdds(drafts, |drafts|, detected, detected, kept);
    var merged := MergeAll(drafts, detected, kept);
    var c :| c in detected && Fresh(merged[k], c);
    ActiveIsFound(detected);
    UpperIsIdempotent(c.name);
    UpperIsIdempotent(Upper(c.name));
    assert Added(Merge(drafts, detected, suppressed).0[k], c, k + 1);
  }

  lemma FindIsBore(drafts: seq<Draft>, name: string)
    ensures Find(drafts, name).Some? <==> Bore(drafts, name)
  {
  }

  /** A detected parameter has a draft afterwards unless it had none and is suppressed; one found in the
      path is then a required path parameter. */
  lemma MergeCovers(drafts: seq<Draft>, detected: seq<Detected>, suppressed: set<string>, c: Detected)
    requires (forall d | d in detected :: d.name != "") && c in detected
    ensures var r := Merge(drafts, detected, suppressed).0;
            && (Bore(r, Upper(c.name)) <==> Bore(drafts, Upper(c.name)) || !Hidden(suppressed, Upper(c.name)))
            && (Bore(r, Upper(c.name)) && c.source == "path" ==>
                  exists k :: 0 <= k < |r| && Bears(r[k], Upper(c.name)) && r[k].source == "path" && r[k].required)
  {
    var kept := Suppressed(suppressed, detected);
    var merged := MergeAll(drafts, detected, kept);
    var r := Merge(drafts, detected, suppressed).0;
    MergeAllSettles(drafts, detected, kept);
    FinishKeepsIndex(merged, ActiveNames(detected));
    HiddenIsSuppressed(suppressed, detected);
    FindIsBore(r, Upper(c.name));
    FindIsBore(drafts, Upper(c.name));
    assert Settled(merged, c, kept);
    if Bore(r, Upper(c.name)) {
      OnlyOldOrShown(drafts, detected, suppressed, c);
    }
    if Bore(drafts, Upper(c.name)) {
      StaysBorne(drafts, detected, suppressed, Upper(c.name));
    }
    if Find(r, Upper(c.name)).Some? {
      var k := Find(r, Upper(c.name)).value;
      assert r[k].source == merged[k].source && r[k].required == merged[k].required;
    }
  }

  lemma OnlyOldOrShown(drafts: seq<Draft>, detected: seq<Detected>, suppressed: set<string>, c: Detected)
    requires (forall d | d in detected :: d.name != "") && c in detected
    requires Bore(Merge(drafts, detected, suppressed).0, Upper(c.name))
    ensures Bore(drafts, Upper(c.name)) || !Hidden(suppressed, Upper(c.name))
  {
    var r := Merge(drafts, detected, suppressed).0;
    var k :| 0 <= k < |r| && Bears(r[k], Upper(c.name));
    if k < |drafts| {
      MergeKeeps(drafts, detected, suppressed, k);
      UpperIsIdempotent(drafts[k].name.value);
      assert Bears(drafts[k], Upper(c.name));
    } else {
      MergeAppendsMissing(drafts, detected, suppressed, k);
      MergeAdds(drafts, detected, suppressed, k);
      HiddenIsSuppressed(suppressed, detected);
      var e :| e in detected && Added(r[k], e, k + 1);
      UpperIsIdempotent(e.name);
      assert Found(detected, Upper(c.name));
    }
  }

  lemma StaysBorne(drafts: seq<Draft>, detected: seq<Detected>, suppressed: set<string>, name: string)
    requires Bore(drafts, name)
    ensures Bore(Merge(drafts, detected, suppressed).0, name)
  {
    var k :| 0 <= k < |drafts| && Bears(drafts[k], name);
    MergeKeeps(drafts, detected, suppressed, k);
    UpperIsIdempotent(drafts[k].name.value);
    assert Bears(Merge(drafts, detected, suppressed).0[k], name);
  }

  /** What is still suppressed are the suppressed names that were detected. */
  lemma MergeStillSuppresses(drafts: seq<Draft>, detected: seq<Detected>, suppressed: set<string>)
    ensures forall n :: n in Merge(drafts, detected, suppressed).1 <==> Hidden(suppressed, n) && Found(detected, n)
  {
    HiddenIsSuppressed(suppressed, detected);
  }
}

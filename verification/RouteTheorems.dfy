/** The stored form of a route path is canonical: two paths have the same one exactly when they differ
    only in case and in the whitespace around them. */
module RouteTheorems {
  import opened Wrappers
  import opened Text
  import opened Parameters
  import opened Routes

  /** Equal up to the case of letters. */
  predicate SameFold(a: string, b: string) {
    |a| == |b| && forall i :: 0 <= i < |a| ==> LowerChar(a[i]) == LowerChar(b[i])
  }

  lemma FoldIsLower(a: string, b: string)
    ensures SameFold(a, b) <==> Lower(a) == Lower(b)
  {
    if Lower(a) == Lower(b) {
      assert |a| == |Lower(a)| && |b| == |Lower(b)|;
      assert forall i | 0 <= i < |a| :: LowerChar(a[i]) == Lower(a)[i] && LowerChar(b[i]) == Lower(b)[i];
    }
  }

  lemma FoldKeepsClasses(c: char, d: char)
    requires LowerChar(c) == LowerChar(d)
    ensures (IsWord(c) <==> IsWord(d)) && (IsNameStart(c) <==> IsNameStart(d)) && (IsSpace(c) <==> IsSpace(d))
    ensures (c == '{' <==> d == '{') && (c == '}' <==> d == '}')
    ensures UpperChar(c) == UpperChar(d)
    ensures LowerChar(UpperChar(c)) == LowerChar(c) && LowerChar(LowerChar(c)) == LowerChar(c)
  {
  }

  lemma FoldAt(a: string, b: string, i: nat)
    requires SameFold(a, b) && i < |a|
    ensures (IsWord(a[i]) <==> IsWord(b[i])) && (IsNameStart(a[i]) <==> IsNameStart(b[i]))
    ensures (IsSpace(a[i]) <==> IsSpace(b[i])) && (a[i] == '{' <==> b[i] == '{') && (a[i] == '}' <==> b[i] == '}')
  {
    FoldKeepsClasses(a[i], b[i]);
  }

  lemma FoldCases(a: string, b: string)
    requires SameFold(a, b)
    ensures Upper(a) == Upper(b) && Lower(a) == Lower(b)
    ensures SameFold(Upper(a), a) && SameFold(Lower(a), a)
  {
    forall i | 0 <= i < |a| ensures UpperChar(a[i]) == UpperChar(b[i])
                                    && LowerChar(UpperChar(a[i])) == LowerChar(a[i])
                                    && LowerChar(LowerChar(a[i])) == LowerChar(a[i])
    {
      FoldKeepsClasses(a[i], b[i]);
    }
  }

  lemma {:induction false} WordRunFolds(a: string, b: string)
    requires SameFold(a, b)
    ensures |WordRun(a)| == |WordRun(b)| && SameFold(WordRun(a), WordRun(b))
    decreases |a|
  {
    if a != "" {
      FoldAt(a, b, 0);
      if IsWord(a[0]) {
        WordRunFolds(a[1..], b[1..]);
      }
    }
  }

  lemma NameFolds(a: string, b: string)
    requires SameFold(a, b)
    ensures IsName(a) <==> IsName(b)
  {
    forall i | 0 <= i < |a| ensures (IsWord(a[i]) <==> IsWord(b[i])) && (IsNameStart(a[i]) <==> IsNameStart(b[i])) {
      FoldAt(a, b, i);
    }
  }

  lemma SlotFolds(a: string, b: string)
    requires SameFold(a, b)
    ensures SlotLength(a) == SlotLength(b)
  {
    if a != "" {
      FoldAt(a, b, 0);
      WordRunFolds(a[1..], b[1..]);
      var v, w := WordRun(a[1..]), WordRun(b[1..]);
      NameFolds(v, w);
      if 1 + |w| < |a| {
        FoldAt(a, b, 1 + |w|);
      }
    }
  }

  /** The stored form depends on the letters, not on their case. */
  lemma {:induction false} ShapeFolds(x: string, a: string, y: string, b: string)
    requires SameFold(x, y) && SameFold(a, b)
    ensures Shape(Parts(x, a), true) == Shape(Parts(y, b), true)
    decreases |a|
  {
    HeadFolds(x, y);
    if a == "" {
      OnePart(x, true);
      OnePart(y, true);
    } else {
      SlotFolds(a, b);
      var k := SlotLength(a);
      if k > 0 {
        HeadFolds(a[..k + 2], b[..k + 2]);
        ShapeFolds("", a[k + 2..], "", b[k + 2..]);
        SlotPart(x, a, true);
        SlotPart(y, b, true);
      } else {
        ShapeFolds(x + [a[0]], a[1..], y + [b[0]], b[1..]);
      }
    }
  }

  function Cased(part: string, upperSlots: bool): string {
    if "{" <= part then if upperSlots then Upper(part) else part else Lower(part)
  }

  lemma HeadFolds(x: string, y: string)
    requires SameFold(x, y)
    ensures Cased(x, true) == Cased(y, true)
    ensures SameFold(Cased(x, true), x) && SameFold(Cased(x, false), x)
  {
    FoldCases(x, y);
    FoldCases(x, x);
    if x != "" {
      FoldAt(x, y, 0);
    }
  }

  lemma {:induction false} OnePart(x: string, up: bool)
    ensures Shape([x], up) == Cased(x, up)
  {
    assert [x][1..] == [];
    assert Cased(x, up) + "" == Cased(x, up);
  }

  lemma {:induction false} TwoParts(x: string, slot: string, rest: seq<string>, up: bool)
    ensures Shape([x, slot] + rest, up) == Cased(x, up) + (Cased(slot, up) + Shape(rest, up))
  {
    var parts := [x, slot] + rest;
    assert parts[1..] == [slot] + rest && parts[1..][1..] == rest;
  }

  lemma SlotKeepsLetters(x: string, slot: string, shape: string, rest: string, up: bool)
    requires SameFold(shape, rest)
    ensures SameFold(Cased(x, up) + (Cased(slot, up) + shape), x + (slot + rest))
  {
    HeadFolds(x, x);
    HeadFolds(slot, slot);
    FoldAppend(Cased(slot, up), slot, shape, rest);
    FoldAppend(Cased(x, up), x, Cased(slot, up) + shape, slot + rest);
  }

  /** Both forms have the letters of the path. */
  lemma {:induction false} ShapeKeepsLetters(x: string, a: string, up: bool)
    ensures SameFold(Shape(Parts(x, a), up), x + a)
    decreases |a|
  {
    var k := SlotLength(a);
    if a == "" {
      LastPart(x, up);
    } else if k > 0 {
      var slot, rest := a[..k + 2], a[k + 2..];
      ShapeKeepsLetters("", rest, up);
      SlotPart(x, a, up);
      SlotKeepsLetters(x, slot, Shape(Parts("", rest), up), rest, up);
    } else {
      ShapeKeepsLetters(x + [a[0]], a[1..], up);
      assert (x + [a[0]]) + a[1..] == x + a;
      assert Parts(x, a) == Parts(x + [a[0]], a[1..]);
    }
  }

  lemma {:induction false} LastPart(x: string, up: bool)
    ensures SameFold(Shape(Parts(x, ""), up), x + "")
  {
    OnePart(x, up);
    HeadFolds(x, x);
    assert x + "" == x;
  }

  lemma SlotPart(x: string, a: string, up: bool)
    requires SlotLength(a) > 0
    ensures var k := SlotLength(a);
            && Shape(Parts(x, a), up) == Cased(x, up) + (Cased(a[..k + 2], up) + Shape(Parts("", a[k + 2..]), up))
            && a == a[..k + 2] + a[k + 2..] && "" + a[k + 2..] == a[k + 2..]
  {
    var k := SlotLength(a);
    PartsAtSlot(x, a, k);
    TwoParts(x, a[..k + 2], Parts("", a[k + 2..]), up);
  }

  lemma {:induction false} PartsAtSlot(x: string, a: string, k: nat)
    requires k == SlotLength(a) && k > 0
    ensures Parts(x, a) == [x, a[..k + 2]] + Parts("", a[k + 2..])
    ensures a == a[..k + 2] + a[k + 2..] && "" + a[k + 2..] == a[k + 2..]
  {
  }

  lemma FoldAppend(a: string, b: string, c: string, d: string)
    requires SameFold(a, b) && SameFold(c, d)
    ensures SameFold(a + c, b + d)
  {
  }

  /** Main result. Two route paths are stored in the same form exactly when they agree up to case and
      surrounding whitespace. */
  lemma StoredFormIsCanonical(a: string, b: string)
    ensures Routes.Normalize(a) == Routes.Normalize(b) <==> Lower(Strip(a)) == Lower(Strip(b))
    ensures Lower(Routes.Normalize(a)) == Lower(Strip(a))
  {
    FoldIsLower(Strip(a), Strip(b));
    assert SameFold("", "");
    if SameFold(Strip(a), Strip(b)) {
      ShapeFolds("", Strip(a), "", Strip(b));
    }
    LettersStay(a);
    LettersStay(b);
  }

  lemma LettersStay(a: string)
    ensures Lower(Routes.Normalize(a)) == Lower(Strip(a))
  {
    ShapeKeepsLetters("", Strip(a), true);
    assert "" + Strip(a) == Strip(a);
    FoldIsLower(Routes.Normalize(a), Strip(a));
  }

  lemma FoldIsTight(a: string, b: string)
    requires SameFold(a, b) && Tight(b)
    ensures Strip(a) == a
  {
    if a != "" {
      FoldAt(a, b, 0);
      FoldAt(a, b, |a| - 1);
    }
    assert Tight(a);
    StripFindsCore("", a, "");
    assert "" + a + "" == a;
  }

  /** Storing a stored path changes nothing. */
  lemma StoringIsIdempotent(route: string)
    ensures Routes.Normalize(Routes.Normalize(route)) == Routes.Normalize(route)
  {
    var stored := Routes.Normalize(route);
    LettersStay(route);
    FoldIsLower(stored, Strip(route));
    FoldIsTight(stored, Strip(route));
    StoredFormIsCanonical(stored, route);
  }

  /** The names of path parameters stay, in upper case. */
  lemma {:induction false} RouteNamesFold(a: string, b: string)
    requires SameFold(a, b)
    ensures UpperAll(RouteNames(a)) == UpperAll(RouteNames(b))
    decreases |a|
  {
    if a != "" {
      FoldAt(a, b, 0);
      WordRunFolds(a[1..], b[1..]);
      var v, w := WordRun(a[1..]), WordRun(b[1..]);
      NameFolds(v, w);
      FoldCases(v, w);
      if 1 + |v| < |a| {
        FoldAt(a, b, 1 + |v|);
      }
      if a[0] == '{' && IsName(v) && 1 + |v| < |a| && a[1 + |v|] == '}' {
        RouteNamesFold(a[2 + |v|..], b[2 + |w|..]);
        FirstUpper(v, RouteNames(a[2 + |v|..]));
        FirstUpper(w, RouteNames(b[2 + |w|..]));
      } else {
        RouteNamesFold(a[1..], b[1..]);
      }
    }
  }

  lemma FirstUpper(name: string, rest: seq<string>)
    ensures UpperAll([name] + rest) == [Upper(name)] + UpperAll(rest)
  {
  }

  /** Detection finds the same parameters in the path as given and as stored. */
  lemma StoredNamesAreKept(route: string)
    ensures UpperAll(RouteNames(Routes.Normalize(route))) == UpperAll(RouteNames(Strip(route)))
  {
    LettersStay(route);
    FoldIsLower(Routes.Normalize(route), Strip(route));
    RouteNamesFold(Routes.Normalize(route), Strip(route));
  }

  lemma {:induction false} NamesAreUpper(a: string, b: string)
    requires UpperAll(RouteNames(a)) == UpperAll(RouteNames(b)) && Distinct(UpperAll(RouteNames(b)))
    ensures Distinct(UpperAll(RouteNames(a)))
  {
  }

  lemma AcceptedValue(route: string)
    requires Accept(route).Ok?
    ensures Accept(route).value == Shape(Parts("", Strip(route)), false)
    ensures Distinct(UpperAll(RouteNames(Accept(route).value)))
  {
  }

  /** An accepted path is stored in the form of the path as it was given, and its path parameters are
      distinct up to case. */
  lemma AcceptedPathsStoreAlike(route: string)
    requires Accept(route).Ok?
    ensures Routes.Normalize(Accept(route).value) == Routes.Normalize(route)
    ensures Distinct(UpperAll(RouteNames(Routes.Normalize(route))))
  {
    var value := Accept(route).value;
    AcceptedValue(route);
    ShapeKeepsLetters("", Strip(route), false);
    assert "" + Strip(route) == Strip(route);
    FoldIsTight(value, Strip(route));
    FoldIsLower(value, Strip(route));
    StoredFormIsCanonical(value, route);
    StoredNamesAreKept(value);
    NamesAreUpper(Routes.Normalize(value), value);
  }

  // ----- the letters of a stored path

  /** The stored form of a path without outer whitespace. */
  function Folded(s: string): string {
    Shape(Parts("", s), true)
  }

  lemma {:induction false} PlainParts(current: string, x: string)
    requires '{' !in x
    ensures Parts(current, x) == [current + x]
    decreases |x|
  {
    if x == "" {
      assert current + x == current;
    } else {
      assert x[0] in x;
      PlainParts(current + [x[0]], x[1..]);
      assert current + [x[0]] + x[1..] == current + x;
    }
  }

  lemma {:induction false} PartsUpToSlot(current: string, x: string, slot: string, b: string)
    requires '{' !in x && IsSlot(slot)
    ensures Parts(current, x + slot + b) == [current + x, slot] + Parts("", b)
    decreases |x|
  {
    if x == "" {
      assert x + slot + b == slot + b && current + x == current;
      SlotIsFirst(slot, b);
      PartsAtSlot(current, slot + b, SlotLength(slot + b));
    } else {
      var s := x + slot + b;
      assert x[0] in x && s[0] == x[0] && s[1..] == x[1..] + slot + b;
      PartsUpToSlot(current + [x[0]], x[1..], slot, b);
      assert current + [x[0]] + x[1..] == current + x;
    }
  }

  /** A placeholder. */
  predicate IsSlot(slot: string) {
    |slot| > 2 && slot[0] == '{' && slot[|slot| - 1] == '}' && IsName(slot[1..|slot| - 1])
  }

  lemma SlotIsFirst(slot: string, b: string)
    requires IsSlot(slot)
    ensures SlotLength(slot + b) == |slot| - 2
    ensures (slot + b)[..|slot|] == slot && (slot + b)[|slot|..] == b
  {
    var name := slot[1..|slot| - 1];
    assert (slot + b)[1..] == name + ("}" + b);
    WordRunEnds(name, "}" + b);
  }

  lemma {:induction false} WordRunEnds(name: string, rest: string)
    requires (forall c | c in name :: IsWord(c)) && (rest == "" || !IsWord(rest[0]))
    ensures WordRun(name + rest) == name
  {
    if name == "" {
      assert name + rest == rest;
    } else {
      assert name[0] in name && (name + rest)[1..] == name[1..] + rest;
      WordRunEnds(name[1..], rest);
    }
  }

  /** Main result on the letters. A path is stored without outer whitespace; text without placeholders in
      lower case, a placeholder in upper case, and what follows it in the same way. */
  lemma StoredLetters(route: string, x: string, slot: string, b: string)
    requires '{' !in x && IsSlot(slot)
    ensures Routes.Normalize(route) == Folded(Strip(route))
    ensures Folded(x) == Lower(x)
    ensures Folded(x + slot + b) == Lower(x) + (Upper(slot) + Folded(b))
  {
    PlainParts("", x);
    assert "" + x == x && [x][1..] == [];
    assert x != "" ==> x[0] in x;
    assert Shape([x], true) == Lower(x) + Shape([], true);
    assert Lower(x) + "" == Lower(x);
    PartsUpToSlot("", x, slot, b);
    TwoParts(x, slot, Parts("", b), true);
  }
}

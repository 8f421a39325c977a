/** The verdict on a SQL text depends on nothing but its skeleton: comments and the contents of
    literals cannot change it. */
module ValidationTheorems {
  import opened Text
  import opened Lexer
  import opened LexerTheorems
  import opened Scanners
  import opened Splitting
  import opened Nesting
  import opened Validation

  // ----- trimming and scrubbing commute

  /** Whitespace outside literals is code. */
  lemma {:induction false} SpaceIsCode(comments: bool, s: string)
    requires AllSpace(s)
    ensures EndMode(comments, Normal, s) == Normal
    ensures Scrub(Lex(comments, Normal, s)) == Lex(comments, Normal, s)
    ensures CommentFree(Lex(comments, Normal, s))
    decreases |s|
  {
    if s != "" {
      assert IsSpace(s[0]);
      assert Read(comments, Normal, s) == Step(Code(s[0]), 1, Normal);
      Unfold(comments, Normal, s);
      SpaceIsCode(comments, s[1..]);
    }
  }

  lemma {:induction false} OpenLiteralVanishes(s: string)
    requires AllSpace(s)
    ensures Scrub(Lex(false, Literal, s)) == []
    ensures CommentFree(Lex(true, Literal, s))
    decreases |s|
  {
    if s != "" {
      assert IsSpace(s[0]);
      Unfold(false, Literal, s);
      Unfold(true, Literal, s);
      OpenLiteralVanishes(s[1..]);
    }
  }

  /** The last character survives scrubbing, or is replaced by a quote. */
  lemma {:induction false} LastScrubbed(m: Mode, s: string)
    requires m == Normal || m == Literal
    requires s != ""
    ensures var r := Source(Scrub(Lex(false, m, s)));
            (m == Normal ==> r != "") && EndsLike(r, s[|s| - 1])
    decreases |s|
  {
    var t, rest := ScrubbedStep(m, s);
    var r := Source(Scrub(Lex(false, t.mode, rest)));
    LastOfStep(m, s);
    if rest != "" {
      LastScrubbed(t.mode, rest);
      assert rest[|rest| - 1] == s[|s| - 1];
    }
    LastJoined(ScrubText(t.item), r, s[|s| - 1]);
  }

  lemma LastOfStep(m: Mode, s: string)
    requires (m == Normal || m == Literal) && s != ""
    ensures var t := Read(false, m, s);
            && (t.mode == Normal || t.mode == Literal)
            && (m == Normal ==> ScrubText(t.item) != "")
            && (t.width == |s| ==> EndsLike(ScrubText(t.item), s[|s| - 1]))
            && (ScrubText(t.item) != "" ==> EndsLike(ScrubText(t.item), s[t.width - 1]))
  {
  }

  predicate EndsLike(s: string, c: char) {
    s != "" ==> s[|s| - 1] == c || s[|s| - 1] == QUOTE
  }

  lemma LastJoined(a: string, b: string, c: char)
    requires EndsLike(b, c) && (b == "" ==> EndsLike(a, c))
    ensures EndsLike(a + b, c) && (a + b == "" <==> a == "" && b == "")
  {
  }

  lemma NotBothBlank(s: string)
    ensures WithoutLiterals(s) == "" <==> s == ""
  {
    if s != "" {
      LastScrubbed(Normal, s);
    }
  }

  lemma ScrubbedCoreIsTight(core: string)
    requires Tight(core)
    ensures Tight(WithoutLiterals(core))
  {
    if core != "" {
      QuoteScanIsCommentFree(Normal, core);
      FirstScrubbed(false, core);
      LastScrubbed(Normal, core);
    }
  }

  /** The scan of a text with white margins, in three parts. */
  lemma {:induction false} LexMargins(comments: bool, lead: string, core: string, trail: string)
    requires AllSpace(lead) && AllSpace(trail)
    ensures Lex(comments, Normal, lead + core + trail)
            == Lex(comments, Normal, lead) + Lex(comments, Normal, core)
               + Lex(comments, EndMode(comments, Normal, core), trail)
  {
    assert lead != "" ==> IsSpace(lead[|lead| - 1]);
    assert trail != "" ==> IsSpace(trail[0]);
    LexAppend(comments, Normal, lead + core, trail);
    LexAppend(comments, Normal, lead, core);
    SpaceIsCode(comments, lead);
  }

  lemma {:induction false} QuoteScanEnds(m: Mode, s: string)
    requires m == Normal || m == Literal
    ensures EndMode(false, m, s) == Normal || EndMode(false, m, s) == Literal
    decreases |s|
  {
    if s != "" {
      var t := Read(false, m, s);
      QuoteScanEnds(t.mode, s[t.width..]);
    }
  }

  /** Trimming before or after emptying the literals is the same, even when the last literal is
      still open. */
  lemma StripCommutes(s: string)
    ensures WithoutLiterals(Strip(s)) == Strip(WithoutLiterals(s))
  {
    var lead, trail := Margins(s);
    var core := Strip(s);
    var m := EndMode(false, Normal, core);
    LexMargins(false, lead, core, trail);
    var a, b, c := Lex(false, Normal, lead), Lex(false, Normal, core), Lex(false, m, trail);
    ScrubAppend(a + b, c);
    ScrubAppend(a, b);
    SourceAppend(Scrub(a) + Scrub(b), Scrub(c));
    SourceAppend(Scrub(a), Scrub(b));
    SpaceIsCode(false, lead);
    LexIsFaithful(false, Normal, lead);
    QuoteScanEnds(Normal, core);
    ScrubbedCoreIsTight(core);
    if m == Normal {
      SpaceIsCode(false, trail);
      LexIsFaithful(false, Normal, trail);
      StripFindsCore(lead, WithoutLiterals(core), trail);
    } else {
      OpenLiteralVanishes(trail);
      StripFindsCore(lead, WithoutLiterals(core), "");
    }
  }

  lemma {:induction false} StripKeepsCommentFree(s: string)
    requires CommentFree(Lex(true, Normal, s))
    ensures CommentFree(Lex(true, Normal, Strip(s)))
  {
    var lead, trail := Margins(s);
    LexMargins(true, lead, Strip(s), trail);
  }

  lemma BlankIsBlank(s: string)
    ensures Blank(WithoutLiterals(s)) <==> Blank(s)
  {
    StripCommutes(s);
    NotBothBlank(Strip(s));
  }

  // ----- splitting and scrubbing commute

  predicate ScrubbedPairs(texts: seq<string>, scrubbed: seq<string>) {
    |texts| == |scrubbed| && forall k :: 0 <= k < |texts| ==> scrubbed[k] == WithoutLiterals(texts[k])
  }

  lemma {:induction false} NonBlankCommutes(texts: seq<string>, scrubbed: seq<string>)
    requires ScrubbedPairs(texts, scrubbed)
    ensures ScrubbedPairs(NonBlank(texts), NonBlank(scrubbed))
  {
    if texts != [] {
      BlankIsBlank(texts[0]);
      NonBlankCommutes(texts[1..], scrubbed[1..]);
      PairsFollow(texts[0], scrubbed[0], NonBlank(texts[1..]), NonBlank(scrubbed[1..]));
    }
  }

  lemma PairsFollow(text: string, scrubbed: string, texts: seq<string>, rest: seq<string>)
    requires scrubbed == WithoutLiterals(text) && ScrubbedPairs(texts, rest)
    ensures ScrubbedPairs([text] + texts, [scrubbed] + rest)
  {
  }

  lemma SplitCommutes(s: string)
    ensures ScrubbedPairs(Statements(s), Statements(WithoutLiterals(s)))
  {
    var items := Lex(false, Normal, s);
    var g := Segments(items);
    QuoteScanIsCommentFree(Normal, s);
    ScrubbedLexesAlike(false, Normal, s);
    ScrubSegments(items);
    SegmentsRelex(false, Normal, s);
    NonBlankCommutes(Texts(g), Texts(Segments(Scrub(items))));
  }

  // ----- the checks see only the scrubbed text

  /** The text before the first quote. */
  function Head(s: string): string {
    if s == "" || s[0] == QUOTE then "" else [s[0]] + Head(s[1..])
  }

  lemma {:induction false} HeadSurvives(s: string)
    ensures Head(WithoutLiterals(s)) == Head(s)
  {
    if s != "" {
      var _, _ := ScrubbedStep(Normal, s);
      if s[0] != QUOTE {
        HeadSurvives(s[1..]);
        assert WithoutLiterals(s)[1..] == WithoutLiterals(s[1..]);
      }
    }
  }

  lemma {:induction false} HeadSplits(s: string) returns (tail: string)
    ensures s == Head(s) + tail && (tail == "" || tail[0] == QUOTE)
  {
    if s == "" || s[0] == QUOTE {
      tail := s;
    } else {
      tail := HeadSplits(s[1..]);
    }
  }

  /** Text that cannot continue a word or the space between two words. */
  predicate Stops(s: string) {
    s == "" || s[0] == QUOTE || s[0] == '('
  }

  /** Neither words nor the space between them reach over a quote or a parenthesis. */
  lemma {:induction false} WordsStop(p: string, tail: string, words: seq<string>)
    requires Stops(tail)
    requires forall w | w in words :: w != "" && forall c | c in w :: IsLetter(c)
    ensures words != [] ==> (StartsWithWords(p + tail, words) <==> StartsWithWords(p, words))
    decreases |words|
  {
    if words != [] {
      var w := words[0];
      assert w in words;
      PrefixStops(p, tail, w);
      if w <= p {
        var rest, next := p[|w|..], words[1..];
        assert (p + tail)[|w|..] == rest + tail;
        assert rest == "" ==> rest + tail == tail;
        assert rest != "" ==> (rest + tail)[0] == rest[0];
        assert tail != "" ==> !IsSpace(tail[0]) && !IsWord(tail[0]);
        if next != [] && rest != "" {
          assert forall x | x in next :: x in words;
          WordsStop(LStrip(rest), tail, next);
          StripStops(rest, tail);
        }
      }
    }
  }

  lemma PrefixStops(p: string, tail: string, w: string)
    requires Stops(tail)
    requires forall c | c in w :: IsLetter(c)
    ensures w <= p + tail <==> w <= p
  {
    assert tail != "" ==> (p + tail)[|p|] == tail[0];
    assert |w| > |p| ==> w[|p|] in w;
  }

  lemma {:induction false} StripStops(s: string, tail: string)
    requires Stops(tail)
    ensures LStrip(s + tail) == LStrip(s) + tail
  {
    if s != "" && IsSpace(s[0]) {
      assert (s + tail)[1..] == s[1..] + tail;
      StripStops(s[1..], tail);
      LStripOne(s);
      LStripOne(s + tail);
    } else {
      assert s == "" ==> s + tail == tail;
      assert Indent(s + tail) == 0;
    }
  }

  lemma LStripOne(s: string)
    requires s != "" && IsSpace(s[0])
    ensures LStrip(s) == LStrip(s[1..])
  {
  }

  lemma {:induction false} ControlSeesOnlyHead(s: string)
    ensures ControlsTransaction(s) <==> ControlsTransaction(Head(s))
  {
    var tail := HeadSplits(s);
    UpperAppend(Head(s), tail);
    forall k | k in CONTROLLED
      ensures StartsWithWords(Upper(s), ["SET", k]) <==> StartsWithWords(Upper(Head(s)), ["SET", k])
    {
      WordsStop(Upper(Head(s)), Upper(tail), ["SET", k]);
    }
  }

  lemma {:induction false} JudgeSeesOnlyScrubbed(statement: string, httpMethod: string)
    requires CommentFree(Lex(true, Normal, statement))
    ensures Judge(statement, httpMethod) == Judge(WithoutLiterals(statement), httpMethod)
  {
    ScrubbedStatement(statement);
    HeadSurvives(statement);
    ControlSeesOnlyHead(statement);
    ControlSeesOnlyHead(WithoutLiterals(statement));
    JudgeFrom(statement, WithoutLiterals(statement), httpMethod);
  }

  /** What the policy looks at. */
  lemma JudgeFrom(a: string, b: string, httpMethod: string)
    requires ControlsTransaction(a) <==> ControlsTransaction(b)
    requires WithoutLiterals(a) == WithoutLiterals(b)
    requires WithoutLiterals(WithoutComments(a)) == WithoutLiterals(WithoutComments(b))
    ensures Judge(a, httpMethod) == Judge(b, httpMethod)
  {
    assert StatementType(a) == StatementType(b);
  }

  lemma {:induction false} ScrubbedStatement(statement: string)
    requires CommentFree(Lex(true, Normal, statement))
    ensures WithoutComments(statement) == statement
    ensures WithoutComments(WithoutLiterals(statement)) == WithoutLiterals(statement)
    ensures WithoutLiterals(WithoutLiterals(statement)) == WithoutLiterals(statement)
  {
    CommentFreeIsFixed(Lex(true, Normal, statement));
    LexIsFaithful(true, Normal, statement);
    TwoPassesAreOne(statement);
    SkeletonIsFixed(statement);
  }

  // ----- parenthesised groups

  /** The same text with nothing inside its outermost groups. */
  function Hollow(t: Nest): Nest {
    match t
    case End => End
    case Char(c, rest) => Char(c, Hollow(rest))
    case Group(_, rest) => Group(End, Hollow(rest))
  }

  lemma {:induction false} HollowKeepsOutline(t: Nest)
    requires WellNested(t)
    ensures WellNested(Hollow(t)) && Outline(Hollow(t)) == Outline(t)
  {
    if !t.End? {
      HollowKeepsOutline(t.rest);
    }
  }

  lemma {:induction false} GroupStops(inner: Nest, rest: Nest)
    ensures Stops(Flat(Group(inner, rest))) && "" + Flat(Group(inner, rest)) == Flat(Group(inner, rest))
  {
  }

  /** Up to their first group the two texts are the same. */
  lemma {:induction false} HollowKeepsStart(t: Nest) returns (p: string, tail: string, hollow: string)
    ensures Flat(t) == p + tail && Flat(Hollow(t)) == p + hollow
    ensures Stops(tail) && Stops(hollow)
  {
    match t
    case End => return "", "", "";
    case Group(inner, rest) =>
      GroupStops(inner, rest);
      GroupStops(End, Hollow(rest));
      return "", Flat(t), Flat(Hollow(t));
    case Char(c, rest) =>
      var q;
      q, tail, hollow := HollowKeepsStart(rest);
      p := [c] + q;
      Associate([c], q, tail);
      Associate([c], q, hollow);
  }

  lemma {:induction false} LettersStop(p: string, tail: string)
    requires Stops(tail)
    ensures LeadingLetters(p + tail) == LeadingLetters(p)
  {
    if p == "" {
      assert p + tail == tail;
    } else {
      assert (p + tail)[1..] == p[1..] + tail;
      LettersStop(p[1..], tail);
    }
  }

  /** What the start of a text decides about the statement type. */
  function Opening(scrubbed: string): (bool, bool, bool, string) {
    var upper := LStrip(Upper(scrubbed));
    (StartsWithWords(upper, ["EXECUTE", "PROCEDURE"]), StartsWithWords(upper, ["UPDATE", "OR", "INSERT"]),
     "WITH" <= upper, LeadingLetters(upper))
  }

  lemma OpeningStops(p: string, tail: string)
    requires Stops(tail)
    ensures Opening(p + tail) == Opening(p)
  {
    UpperAppend(p, tail);
    StripStops(Upper(p), Upper(tail));
    var start := LStrip(Upper(p));
    WordsStop(start, Upper(tail), ["EXECUTE", "PROCEDURE"]);
    WordsStop(start, Upper(tail), ["UPDATE", "OR", "INSERT"]);
    PrefixStops(start, Upper(tail), "WITH");
    LettersStop(start, Upper(tail));
  }

  lemma {:induction false} TypeFromOpening(a: string, b: string)
    requires Opening(a) == Opening(b) && TopWords(0, "", a) == TopWords(0, "", b)
    ensures TypeOfScrubbed(a) == TypeOfScrubbed(b)
  {
  }

  /** The statement type never depends on what stands inside a parenthesised group. */
  lemma {:induction false} TypeIgnoresGroups(t: Nest)
    requires WellNested(t)
    ensures TypeOfScrubbed(Flat(t)) == TypeOfScrubbed(Flat(Hollow(t)))
  {
    HollowKeepsOutline(t);
    GroupContentIsInvisible(t, Hollow(t));
    var p, tail, hollow := HollowKeepsStart(t);
    OpeningStops(p, tail);
    OpeningStops(p, hollow);
    TypeFromOpening(Flat(t), Flat(Hollow(t)));
  }

  /** Main result: for every text and method, the verdict, its error and the statement type are
      those of the skeleton. */
  lemma ValidationSeesOnlySkeleton(sql: string, httpMethod: string)
    ensures Validate(sql, httpMethod) == Validate(Skeleton(sql), httpMethod)
  {
    var plain := WithoutComments(sql);
    var clean := Strip(plain);
    CommentsLeaveNoTrace(sql);
    TwoPassesAreOne(sql);
    SkeletonIsFixed(sql);
    StripCommutes(plain);
    StripKeepsCommentFree(plain);
    StatementsStayCommentFree(clean);
    SplitCommutes(clean);
    if |Statements(clean)| == 1 {
      var statement := Statements(clean)[0];
      StripCommutes(statement);
      BlankIsBlank(statement);
      StripKeepsCommentFree(statement);
      JudgeSeesOnlyScrubbed(Strip(statement), Upper(httpMethod));
    }
  }
}

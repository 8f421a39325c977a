/** What the SQL policy guarantees about a whole text, not only about the statement it looks at. */
module PolicyTheorems {
  import opened Text
  import opened Lexer
  import opened LexerTheorems
  import opened Scanners
  import opened Splitting
  import opened Nesting
  import opened Validation
  import opened ValidationTheorems

  // ----- words

  function AllWords(s: string): seq<string> {
    Words("", Upper(s))
  }

  predicate Wordless(s: string) {
    forall k :: 0 <= k < |s| ==> !IsWord(s[k])
  }

  lemma {:induction false} WordsAcross(current: string, a: string, c: char, b: string)
    requires !IsWord(c)
    ensures Words(current, a + ([c] + b)) == Words(current, a) + Words("", b)
    decreases |a|
  {
    var s := a + ([c] + b);
    if a == "" {
      assert s == [c] + b && s[1..] == b;
    } else {
      assert s[0] == a[0] && s[1..] == a[1..] + ([c] + b);
      if IsWord(a[0]) {
        WordsAcross(current + [a[0]], a[1..], c, b);
      } else {
        WordsAcross("", a[1..], c, b);
        Associate(Flush(current), Words("", a[1..]), Words("", b));
      }
    }
  }

  lemma {:induction false} WordlessHasNone(s: string)
    requires Wordless(s)
    ensures Words("", s) == []
    decreases |s|
  {
    if s != "" {
      WordlessHasNone(s[1..]);
    }
  }

  lemma {:induction false} WordlessLead(lead: string, s: string)
    requires Wordless(lead)
    ensures Words("", lead + s) == Words("", s)
    decreases |lead|
  {
    if lead == "" {
      assert lead + s == s;
    } else {
      assert (lead + s)[1..] == lead[1..] + s;
      WordlessLead(lead[1..], s);
    }
  }

  lemma {:induction false} WordlessTrail(s: string, trail: string)
    requires Wordless(trail)
    ensures Words("", s + trail) == Words("", s)
  {
    if trail == "" {
      assert s + trail == s;
    } else {
      assert s + trail == s + ([trail[0]] + trail[1..]);
      WordsAcross("", s, trail[0], trail[1..]);
      WordlessHasNone(trail[1..]);
    }
  }

  lemma {:induction false} SpaceIsWordless(s: string)
    requires AllSpace(s)
    ensures Wordless(Upper(s)) && Wordless(s) && Parens(s) == ""
    decreases |s|
  {
    if s != "" {
      assert AllSpace(s[1..]);
      SpaceIsWordless(s[1..]);
      assert IsSpace(s[0]);
      forall k | 0 <= k < |s| ensures !IsWord(Upper(s)[k]) && !IsWord(s[k]) {
        assert IsSpace(s[k]) && Upper(s)[k] == UpperChar(s[k]);
      }
    }
  }

  // ----- parentheses

  /** The parentheses of a text. */
  function Parens(s: string): string {
    if s == "" then ""
    else (if s[0] == '(' || s[0] == ')' then [s[0]] else "") + Parens(s[1..])
  }

  lemma {:induction false} BalanceSeesParens(depth: nat, s: string)
    ensures Balances(depth, s) <==> Balances(depth, Parens(s))
    decreases |s|
  {
    if s != "" {
      if s[0] == '(' || s[0] == ')' {
        assert Parens(s)[0] == s[0] && Parens(s)[1..] == Parens(s[1..]);
        if s[0] == '(' {
          BalanceSeesParens(depth + 1, s[1..]);
        } else if depth > 0 {
          BalanceSeesParens(depth - 1, s[1..]);
        }
      } else {
        assert "" + Parens(s[1..]) == Parens(s[1..]);
        BalanceSeesParens(depth, s[1..]);
      }
    }
  }

  lemma {:induction false} ParensAppend(a: string, b: string)
    ensures Parens(a + b) == Parens(a) + Parens(b)
    decreases |a|
  {
    if a == "" {
      assert a + b == b;
    } else {
      assert (a + b)[0] == a[0] && (a + b)[1..] == a[1..] + b;
      ParensAppend(a[1..], b);
      Associate(if a[0] == '(' || a[0] == ')' then [a[0]] else "", Parens(a[1..]), Parens(b));
    }
  }

  // ----- what trimming and splitting keep

  /** Two texts with the same words and the same parentheses. */
  predicate Alike(a: string, b: string) {
    AllWords(a) == AllWords(b) && Parens(a) == Parens(b)
  }

  lemma StripIsAlike(s: string)
    ensures Alike(Strip(s), s)
  {
    var lead, trail := Margins(s);
    var core := Strip(s);
    SpaceIsWordless(lead);
    SpaceIsWordless(trail);
    UpperAppend(lead + core, trail);
    UpperAppend(lead, core);
    WordlessTrail(Upper(lead) + Upper(core), Upper(trail));
    WordlessLead(Upper(lead), Upper(core));
    ParensAppend(lead + core, trail);
    ParensAppend(lead, core);
  }

  lemma {:induction false} BlankIsSpace(s: string)
    requires Blank(s)
    ensures AllSpace(s) && AllWords(s) == [] && Parens(s) == ""
  {
    var lead, trail := Margins(s);
    assert lead + "" + trail == s;
    SpaceIsWordless(s);
    WordlessHasNone(Upper(s));
  }

  /** The words of all pieces, in order, and their parentheses. */
  function Gather(pieces: seq<string>): (seq<string>, string) {
    if pieces == [] then ([], "")
    else
      var (words, parens) := Gather(pieces[1..]);
      (AllWords(pieces[0]) + words, Parens(pieces[0]) + parens)
  }

  lemma {:induction false} JoinGathers(pieces: seq<string>)
    ensures (AllWords(Join(pieces, ";")), Parens(Join(pieces, ";"))) == Gather(pieces)
    decreases |pieces|
  {
    if |pieces| == 1 {
      assert Gather(pieces[1..]) == ([], "");
      assert AllWords(pieces[0]) + [] == AllWords(pieces[0]) && Parens(pieces[0]) + "" == Parens(pieces[0]);
    } else if pieces != [] {
      JoinGathers(pieces[1..]);
      Separated(pieces[0], Join(pieces[1..], ";"));
    }
  }

  lemma {:induction false} Separated(a: string, b: string)
    ensures AllWords(a + ";" + b) == AllWords(a) + AllWords(b) && Parens(a + ";" + b) == Parens(a) + Parens(b)
  {
    assert a + ";" + b == a + (";" + b);
    UpperAppend(a, ";" + b);
    UpperAppend(";", b);
    assert Upper(";") == ";";
    WordsAcross("", Upper(a), ';', Upper(b));
    ParensAppend(a, ";" + b);
    ParensAppend(";", b);
    assert Parens(";") == "" && "" + Parens(b) == Parens(b);
  }

  lemma {:induction false} BlanksGatherNothing(pieces: seq<string>)
    ensures Gather(NonBlank(pieces)) == Gather(pieces)
    decreases |pieces|
  {
    if pieces != [] {
      BlanksGatherNothing(pieces[1..]);
      var rest := NonBlank(pieces[1..]);
      if Blank(pieces[0]) {
        BlankIsSpace(pieces[0]);
        assert [] + rest == rest;
        var (words, parens) := Gather(pieces[1..]);
        assert [] + words == words && "" + parens == parens;
      } else {
        assert ([pieces[0]] + rest)[1..] == rest;
      }
    }
  }

  /** The one statement of a text has all its words and parentheses. */
  lemma StatementIsAlike(s: string)
    requires |Statements(s)| == 1
    ensures Alike(Strip(Statements(s)[0]), s)
  {
    var pieces := StatementsPartition(s);
    var p := Statements(s)[0];
    JoinGathers(pieces);
    BlanksGatherNothing(pieces);
    assert NonBlank(pieces) == [p];
    JoinGathers([p]);
    StripIsAlike(p);
  }

  // ----- the policy

  lemma {:induction false} FirstOfFinds(candidates: seq<string>, words: seq<string>)
    requires "" !in candidates
    ensures FirstOf(candidates, words) != "" <==> exists w :: w in candidates && w in words
    decreases |candidates|
  {
    if candidates != [] {
      FirstOfFinds(candidates[1..], words);
      assert candidates[0] in candidates;
      assert forall w :: w in candidates <==> w == candidates[0] || w in candidates[1..];
    }
  }

  /** No forbidden command and no EXECUTE BLOCK among the words. */
  predicate Permitted(s: string) {
    (forall w | w in FORBIDDEN :: w !in Tokens(s)) && !("EXECUTE" in Tokens(s) && "BLOCK" in Tokens(s))
  }

  lemma {:induction false} DecidePermits(controls: bool, scrubbed: string, statementType: string, httpMethod: string)
    ensures Decide(controls, scrubbed, statementType, httpMethod).Valid?
            <==> !controls && Balances(0, scrubbed) && Permitted(scrubbed) && statementType in Allowed(httpMethod)
  {
    FirstOfFinds(FORBIDDEN, Tokens(scrubbed));
  }

  lemma {:induction false} AlikePermits(a: string, b: string)
    requires Alike(a, b)
    ensures (Permitted(a) <==> Permitted(b)) && (Balances(0, a) <==> Balances(0, b))
  {
    BalanceSeesParens(0, a);
    BalanceSeesParens(0, b);
  }

  /** The statement of a trimmed skeleton has nothing left to scrub. */
  lemma StatementIsScrubbed(sql: string)
    requires |Statements(Strip(Skeleton(sql)))| == 1
    ensures var statement := Strip(Statements(Strip(Skeleton(sql)))[0]);
            WithoutLiterals(statement) == statement && WithoutComments(statement) == statement
  {
    var k := Skeleton(sql);
    var clean := Strip(k);
    var p := Statements(clean)[0];
    SkeletonIsFixed(sql);
    StripCommutes(k);
    SplitCommutes(clean);
    assert WithoutLiterals(p) == p;
    StripCommutes(p);
    SkeletonIsCommentFree(sql);
    StripKeepsCommentFree(k);
    StatementsStayCommentFree(clean);
    StripKeepsCommentFree(p);
    CommentFreeIsFixed(Lex(true, Normal, Strip(p)));
    LexIsFaithful(true, Normal, Strip(p));
  }

  lemma SkeletonIsCommentFree(sql: string)
    ensures CommentFree(Lex(true, Normal, Skeleton(sql)))
  {
    CommentsLeaveNoTrace(Skeleton(sql));
    SkeletonIsFixed(sql);
  }

  /** Main result. A text is accepted exactly when its method is known, its skeleton is one statement
      that does not set the transaction and is of a type the method allows, and the whole skeleton is
      balanced and holds no forbidden command: nothing hides beside the statement that is checked. */
  lemma AcceptedIff(sql: string, httpMethod: string)
    ensures var k := Skeleton(sql);
            var statements := Statements(Strip(k));
            Validate(sql, httpMethod).Valid?
            <==> && Upper(httpMethod) in METHODS && |statements| == 1
                 && Balances(0, k) && Permitted(k)
                 && !ControlsTransaction(Strip(statements[0]))
                 && TypeOfScrubbed(Strip(statements[0])) in Allowed(Upper(httpMethod))
  {
    var k := Skeleton(sql);
    ValidationSeesOnlySkeleton(sql, httpMethod);
    SkeletonIsFixed(sql);
    if |Statements(Strip(k))| == 1 {
      var statement := Strip(Statements(Strip(k))[0]);
      assert !Blank(Statements(Strip(k))[0]);
      StatementIsScrubbed(sql);
      StatementIsAlike(Strip(k));
      StripIsAlike(k);
      AlikePermits(statement, k);
      DecidePermits(ControlsTransaction(statement), statement, TypeOfScrubbed(statement), Upper(httpMethod));
    }
  }
}

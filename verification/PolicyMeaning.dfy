/** The SQL policy told from the text: which words it must not hold, and how it must begin under each
    method. */
module PolicyMeaning {
  import opened Text
  import opened Lexer
  import opened LexerTheorems
  import opened Scanners
  import opened Splitting
  import opened Nesting
  import opened Validation
  import opened ValidationTheorems
  import opened PolicyTheorems

  // ----- words

  /** The characters from `i` to `j` are a whole word. */
  predicate RunAt(s: string, i: nat, j: nat) {
    && i < j <= |s| && (forall k :: i <= k < j ==> IsWord(s[k]))
    && (i == 0 || !IsWord(s[i - 1])) && (j == |s| || !IsWord(s[j]))
  }

  /** The text holds this word, in any letter case. */
  ghost predicate HoldsWord(s: string, word: string) {
    exists i: nat, j: nat :: RunAt(s, i, j) && Upper(s[i..j]) == word
  }

  predicate AllWord(s: string) {
    forall k :: 0 <= k < |s| ==> IsWord(s[k])
  }

  lemma RunLater(head: string, rest: string, i: nat, j: nat)
    requires head != "" && !IsWord(head[|head| - 1])
    ensures RunAt(head + rest, |head| + i, |head| + j) <==> RunAt(rest, i, j)
    ensures i <= j <= |rest| ==> (head + rest)[|head| + i..|head| + j] == rest[i..j]
  {
    var s, d := head + rest, |head|;
    assert forall k :: 0 <= k < |rest| ==> s[d + k] == rest[k];
    assert i > 0 && i <= |rest| ==> s[d + i - 1] == rest[i - 1];
    assert s[d - 1] == head[d - 1];
    if RunAt(s, d + i, d + j) {
      forall k | i <= k < j ensures IsWord(rest[k]) {
        assert s[d + k] == rest[k];
      }
    }
    if RunAt(rest, i, j) {
      forall k | d + i <= k < d + j ensures IsWord(s[k]) {
        assert s[k] == rest[k - d];
      }
    }
  }

  lemma RunFirst(current: string, c: char, rest: string, i: nat, j: nat)
    requires AllWord(current) && !IsWord(c) && i <= |current|
    ensures RunAt(current + [c] + rest, i, j) <==> i == 0 < |current| && j == |current|
    ensures (current + [c] + rest)[..|current|] == current
  {
    var s := current + [c] + rest;
    assert s[|current|] == c;
    assert i > 0 ==> s[i - 1] == current[i - 1];
  }

  lemma HoldsHere(current: string, c: char, rest: string, word: string, i: nat, j: nat)
    requires AllWord(current) && !IsWord(c)
    requires var s := current + [c] + rest; RunAt(s, i, j) && Upper(s[i..j]) == word
    ensures (current != "" && Upper(current) == word) || HoldsWord(rest, word)
  {
    var s, d := current + [c] + rest, |current| + 1;
    if i <= |current| {
      RunFirst(current, c, rest, i, j);
    } else {
      RunLater(current + [c], rest, i - d, j - d);
      assert RunAt(rest, i - d, j - d) && Upper(rest[i - d..j - d]) == word;
    }
  }

  lemma HoldsAcross(current: string, c: char, rest: string, word: string)
    requires AllWord(current) && !IsWord(c)
    ensures HoldsWord(current + [c] + rest, word) <==> (current != "" && Upper(current) == word) || HoldsWord(rest, word)
  {
    var s, d := current + [c] + rest, |current| + 1;
    if i: nat, j: nat :| RunAt(s, i, j) && Upper(s[i..j]) == word {
      HoldsHere(current, c, rest, word, i, j);
    }
    if current != "" && Upper(current) == word {
      RunFirst(current, c, rest, 0, |current|);
      assert RunAt(s, 0, |current|) && s[0..|current|] == current;
    }
    if i: nat, j: nat :| RunAt(rest, i, j) && Upper(rest[i..j]) == word {
      RunLater(current + [c], rest, i, j);
      assert RunAt(s, d + i, d + j);
    }
  }

  lemma HoldsAlone(current: string, word: string)
    requires AllWord(current)
    ensures HoldsWord(current, word) <==> current != "" && Upper(current) == word
  {
    if i: nat, j: nat :| RunAt(current, i, j) && Upper(current[i..j]) == word {
      assert i == 0 && j == |current| && current[i..j] == current;
    }
    if current != "" && Upper(current) == word {
      assert RunAt(current, 0, |current|) && current[0..|current|] == current;
    }
  }

  /** The words collected are the whole words of the text. */
  lemma {:induction false} WordsAreRuns(current: string, s: string, word: string)
    requires AllWord(current)
    ensures word in Words(current, s) <==> HoldsWord(current + s, word)
    decreases |s|
  {
    if s == "" {
      HoldsAlone(current, word);
      assert current + s == current;
    } else if IsWord(s[0]) {
      WordsAreRuns(current + [s[0]], s[1..], word);
      assert current + [s[0]] + s[1..] == current + s;
    } else {
      WordsAreRuns("", s[1..], word);
      assert "" + s[1..] == s[1..];
      HoldsAcross(current, s[0], s[1..], word);
      assert current + [s[0]] + s[1..] == current + s;
    }
  }

  lemma RunIsUpper(s: string, i: nat, j: nat)
    ensures RunAt(Upper(s), i, j) <==> RunAt(s, i, j)
    ensures i <= j <= |s| ==> Upper(Upper(s)[i..j]) == Upper(s[i..j])
  {
    assert forall k :: 0 <= k < |s| ==> Upper(s)[k] == UpperChar(s[k]) && (IsWord(UpperChar(s[k])) <==> IsWord(s[k]));
  }

  lemma HoldsUpper(s: string, word: string)
    ensures HoldsWord(Upper(s), word) <==> HoldsWord(s, word)
  {
    forall i: nat, j: nat
      ensures RunAt(Upper(s), i, j) && Upper(Upper(s)[i..j]) == word <==> RunAt(s, i, j) && Upper(s[i..j]) == word
    {
      RunIsUpper(s, i, j);
    }
  }

  /** A plain word is a token exactly when the text holds it. */
  lemma TokensAreWords(s: string, word: string)
    requires word != "" && forall c | c in word :: 'A' <= c <= 'Z'
    ensures word in Tokens(s) <==> HoldsWord(s, word)
  {
    WordsAreRuns("", Upper(s), word);
    assert "" + Upper(s) == Upper(s);
    HoldsUpper(s, word);
    assert word[0] in word;
  }

  predicate IsForbidden(w: string) {
    w in {"ALTER", "COMMIT", "CONNECT", "CREATE", "DISCONNECT", "DROP", "GRANT", "REVOKE", "ROLLBACK",
          "SAVEPOINT", "TRUNCATE"}
  }

  /** No data definition, no access rights, no transaction control, and no EXECUTE BLOCK. */
  ghost predicate Harmless(s: string) {
    && (forall w | IsForbidden(w) :: !HoldsWord(s, w))
    && !(HoldsWord(s, "EXECUTE") && HoldsWord(s, "BLOCK"))
  }

  lemma HarmlessIsPermitted(s: string)
    ensures Harmless(s) <==> Permitted(s)
  {
    forall w | w in FORBIDDEN || w == "EXECUTE" || w == "BLOCK" ensures w in Tokens(s) <==> HoldsWord(s, w) {
      CapitalWords();
      TokensAreWords(s, w);
    }
    ForbiddenWords();
  }

  predicate Capitals(w: string) {
    w != "" && forall c | c in w :: 'A' <= c <= 'Z'
  }

  lemma CapitalWords()
    ensures forall w | w in FORBIDDEN :: Capitals(w)
    ensures Capitals("EXECUTE") && Capitals("BLOCK")
  {
  }

  lemma ForbiddenWords()
    ensures forall w :: w in FORBIDDEN <==> IsForbidden(w)
  {
  }

  // ----- how a statement begins

  predicate EndsWord(rest: string) {
    rest == "" || !IsWord(rest[0])
  }

  /** Two words with whitespace between them stand at the start. */
  ghost predicate BeginsWithTwo(s: string, a: string, b: string) {
    exists gap: string, rest: string :: gap != "" && AllSpace(gap) && EndsWord(rest) && s == a + gap + b + rest
  }

  ghost predicate BeginsWithThree(s: string, a: string, b: string, c: string) {
    exists gap: string, rest: string ::
      gap != "" && AllSpace(gap) && s == a + gap + rest && BeginsWithTwo(rest, b, c)
  }

  lemma LastWord(s: string, w: string)
    ensures StartsWithWords(s, [w]) <==> exists rest: string :: EndsWord(rest) && s == w + rest
  {
    if w <= s {
      assert s == w + s[|w|..];
    }
    if rest: string :| s == w + rest {
      assert s[|w|..] == rest;
    }
  }

  lemma MoreWords(s: string, w: string, words: seq<string>)
    requires words != []
    ensures StartsWithWords(s, [w] + words)
            <==> w <= s && var rest := s[|w|..]; rest != "" && IsSpace(rest[0]) && StartsWithWords(LStrip(rest), words)
  {
    assert ([w] + words)[1..] == words;
  }

  lemma GapIsStripped(gap: string, rest: string)
    requires AllSpace(gap) && rest != "" && !IsSpace(rest[0])
    ensures LStrip(gap + rest) == rest
  {
    LStripSkips(gap, rest);
  }

  lemma TwoWordsBegin(s: string, a: string, b: string)
    requires Capitals(b)
    ensures StartsWithWords(s, [a, b]) <==> BeginsWithTwo(s, a, b)
  {
    if StartsWithWords(s, [a, b]) {
      TwoWordsApart(s, a, b);
    }
    if gap: string, rest: string :| gap != "" && AllSpace(gap) && EndsWord(rest) && s == a + gap + b + rest {
      TwoWordsJoin(s, a, b, gap, rest);
    }
  }

  lemma TwoWordsApart(s: string, a: string, b: string)
    requires StartsWithWords(s, [a, b])
    ensures BeginsWithTwo(s, a, b)
  {
    assert [a, b] == [a] + [b];
    MoreWords(s, a, [b]);
    var gap, after := GapAfter(s, a);
    LastWord(after, b);
    var rest: string :| EndsWord(rest) && after == b + rest;
    assert s == a + gap + b + rest;
  }

  lemma TwoWordsJoin(s: string, a: string, b: string, gap: string, rest: string)
    requires Capitals(b) && gap != "" && AllSpace(gap) && EndsWord(rest) && s == a + gap + b + rest
    ensures StartsWithWords(s, [a, b])
  {
    assert [a, b] == [a] + [b];
    MoreWords(s, a, [b]);
    assert b[0] in b;
    assert s[|a|..] == gap + (b + rest);
    GapIsStripped(gap, b + rest);
    LastWord(b + rest, b);
  }

  lemma ThreeWordsBegin(s: string, a: string, b: string, c: string)
    requires Capitals(b) && Capitals(c)
    ensures StartsWithWords(s, [a, b, c]) <==> BeginsWithThree(s, a, b, c)
  {
    if StartsWithWords(s, [a, b, c]) {
      ThreeWordsApart(s, a, b, c);
    }
    if gap: string, rest: string :| gap != "" && AllSpace(gap) && s == a + gap + rest && BeginsWithTwo(rest, b, c) {
      ThreeWordsJoin(s, a, b, c, gap, rest);
    }
  }

  lemma ThreeWordsApart(s: string, a: string, b: string, c: string)
    requires Capitals(b) && Capitals(c) && StartsWithWords(s, [a, b, c])
    ensures BeginsWithThree(s, a, b, c)
  {
    assert [a, b, c] == [a] + [b, c];
    MoreWords(s, a, [b, c]);
    var gap, rest := GapAfter(s, a);
    TwoWordsBegin(rest, b, c);
  }

  lemma GapAfter(s: string, a: string) returns (gap: string, rest: string)
    requires a <= s
    ensures s == a + gap + rest && AllSpace(gap) && rest == LStrip(s[|a|..])
    ensures |a| < |s| && IsSpace(s[|a|]) ==> gap != ""
  {
    var after := s[|a|..];
    gap, rest := after[..Indent(after)], LStrip(after);
    assert after == gap + rest;
  }

  lemma ThreeWordsJoin(s: string, a: string, b: string, c: string, gap: string, rest: string)
    requires Capitals(b) && Capitals(c)
    requires gap != "" && AllSpace(gap) && s == a + gap + rest && BeginsWithTwo(rest, b, c)
    ensures StartsWithWords(s, [a, b, c])
  {
    assert [a, b, c] == [a] + [b, c];
    MoreWords(s, a, [b, c]);
    assert s[|a|..] == gap + rest;
    AfterGap(gap, rest, b, c);
  }

  lemma AfterGap(gap: string, rest: string, b: string, c: string)
    requires Capitals(b) && Capitals(c) && AllSpace(gap) && BeginsWithTwo(rest, b, c)
    ensures LStrip(gap + rest) == rest && StartsWithWords(rest, [b, c])
  {
    assert b[0] in b && rest[0] == b[0];
    GapIsStripped(gap, rest);
    TwoWordsBegin(rest, b, c);
  }

  /** The letters at the start, up to the first character that is no capital, spell the word. */
  predicate Leads(s: string, word: string) {
    word <= s && (|word| < |s| ==> !('A' <= s[|word|] <= 'Z')) && Capitals(word)
  }

  lemma {:induction false} LettersThen(word: string, rest: string)
    requires forall k :: 0 <= k < |word| ==> 'A' <= word[k] <= 'Z'
    requires rest == "" || !('A' <= rest[0] <= 'Z')
    ensures LeadingLetters(word + rest) == word
  {
    if word == "" {
      assert word + rest == rest;
    } else {
      assert (word + rest)[1..] == word[1..] + rest;
      LettersThen(word[1..], rest);
    }
  }

  lemma {:induction false} LettersLead(s: string)
    ensures var w := LeadingLetters(s);
            w <= s && (|w| < |s| ==> !('A' <= s[|w|] <= 'Z')) && forall c | c in w :: 'A' <= c <= 'Z'
  {
    if s != "" && 'A' <= s[0] <= 'Z' {
      LettersLead(s[1..]);
    }
  }

  lemma LeadsIsLetters(s: string, word: string)
    requires Capitals(word)
    ensures Leads(s, word) <==> LeadingLetters(s) == word
  {
    LettersLead(s);
    if Leads(s, word) {
      assert s == word + s[|word|..];
      assert forall k :: 0 <= k < |word| ==> word[k] in word;
      LettersThen(word, s[|word|..]);
    }
  }

  predicate IsOperationWord(w: string) {
    w in {"SELECT", "INSERT", "UPDATE", "DELETE", "MERGE"}
  }

  /** The last of the five operations among the words outside parentheses. */
  ghost predicate LastOperation(s: string, word: string) {
    exists before: seq<string>, after: seq<string> ::
      TopWords(0, "", s) == before + [word] + after && IsOperationWord(word)
      && forall w | w in after :: !IsOperationWord(w)
  }

  lemma OperationWords(w: string)
    ensures IsOperation(w) <==> IsOperationWord(w)
  {
    assert OPERATIONS[0] == "SELECT" && OPERATIONS[1] == "INSERT" && OPERATIONS[2] == "UPDATE";
    assert OPERATIONS[3] == "DELETE" && OPERATIONS[4] == "MERGE";
  }

  lemma LastOfFilter(words: seq<string>, word: string)
    ensures var kept := Filter(words, IsOperation);
            kept != [] && kept[|kept| - 1] == word
            <==> exists before: seq<string>, after: seq<string> ::
                   words == before + [word] + after && IsOperation(word) && forall w | w in after :: !IsOperation(w)
  {
    var kept := Filter(words, IsOperation);
    if words != [] {
      if kept != [] && kept[|kept| - 1] == word {
        LastIsSplit(words, word);
      }
      if before: seq<string>, after: seq<string> :|
         words == before + [word] + after && IsOperation(word) && forall w | w in after :: !IsOperation(w)
      {
        SplitIsLast(words, word, before, after);
      }
    }
  }

  lemma {:induction false} LastIsSplit(words: seq<string>, word: string)
    requires var kept := Filter(words, IsOperation); kept != [] && kept[|kept| - 1] == word
    ensures exists before: seq<string>, after: seq<string> ::
              words == before + [word] + after && IsOperation(word) && forall w | w in after :: !IsOperation(w)
    decreases |words|
  {
    var rest := Filter(words[1..], IsOperation);
    if rest == [] {
      assert words == [] + [word] + words[1..];
    } else {
      LastIsSplit(words[1..], word);
      var before: seq<string>, after: seq<string> :|
        words[1..] == before + [word] + after && IsOperation(word) && forall w | w in after :: !IsOperation(w);
      OneMoreBefore(words, before, word, after);
    }
  }

  lemma OneMoreBefore(words: seq<string>, before: seq<string>, word: string, after: seq<string>)
    requires words != [] && words[1..] == before + [word] + after
    ensures words == ([words[0]] + before) + [word] + after
  {
    assert words == [words[0]] + words[1..];
  }

  lemma {:induction false} NoneKept(words: seq<string>)
    requires forall w | w in words :: !IsOperation(w)
    ensures Filter(words, IsOperation) == []
  {
    if words != [] {
      NoneKept(words[1..]);
    }
  }

  lemma {:induction false} SplitIsLast(words: seq<string>, word: string, before: seq<string>, after: seq<string>)
    requires words == before + [word] + after && IsOperation(word) && forall w | w in after :: !IsOperation(w)
    ensures var kept := Filter(words, IsOperation); kept != [] && kept[|kept| - 1] == word
    decreases |words|
  {
    if before == [] {
      assert words[1..] == after;
      NoneKept(after);
    } else {
      assert words[1..] == before[1..] + [word] + after;
      SplitIsLast(words[1..], word, before[1..], after);
    }
  }

  // ----- the statement type

  predicate IsWithQuery(s: string) {
    "WITH" <= Upper(s)
  }

  /** The command of a statement: its first word, or the last operation of a query that begins with
      WITH. */
  ghost predicate Commands(s: string, word: string) {
    if IsWithQuery(s) then LastOperation(s, word) else Leads(Upper(s), word)
  }

  ghost predicate CallsProcedure(s: string) {
    BeginsWithTwo(Upper(s), "EXECUTE", "PROCEDURE")
  }

  ghost predicate UpdatesOrInserts(s: string) {
    BeginsWithThree(Upper(s), "UPDATE", "OR", "INSERT")
  }

  lemma TightIsLStripped(s: string)
    requires Tight(s)
    ensures LStrip(Upper(s)) == Upper(s)
  {
    if s != "" {
      assert !IsSpace(s[0]) && Upper(s)[0] == UpperChar(s[0]) && !IsSpace(Upper(s)[0]);
    }
  }

  lemma LowerIsExact(a: string, b: string)
    requires (forall c | c in a :: 'A' <= c <= 'Z') && forall c | c in b :: 'A' <= c <= 'Z'
    ensures Lower(a) == Lower(b) <==> a == b
  {
    if Lower(a) == Lower(b) {
      assert |a| == |Lower(a)| == |Lower(b)| == |b|;
      forall k | 0 <= k < |a| ensures a[k] == b[k] {
        assert Lower(a)[k] == Lower(b)[k] && a[k] in a && b[k] in b;
      }
    }
  }

  /** What is left of the type once procedure calls and UPDATE OR INSERT are set aside. */
  function CommandType(s: string): string {
    var operations := Operations(s);
    if IsWithQuery(s) then if operations == [] then "" else Lower(operations[|operations| - 1])
    else Lower(LeadingLetters(Upper(s)))
  }

  lemma OperationsAreCapitals(s: string)
    ensures forall w | w in Operations(s) :: Capitals(w)
  {
    forall w | w in Operations(s) ensures Capitals(w) {
      OperationWords(w);
    }
  }

  lemma LastOperationIs(s: string, word: string)
    ensures LastOperation(s, word) <==> Operations(s) != [] && Operations(s)[|Operations(s)| - 1] == word
  {
    LastOfFilter(TopWords(0, "", s), word);
    forall w ensures IsOperation(w) <==> IsOperationWord(w) {
      OperationWords(w);
    }
  }

  lemma CommandTypeIs(s: string, word: string)
    requires Capitals(word)
    ensures CommandType(s) == Lower(word) <==> Commands(s, word)
  {
    assert Lower(word) != "";
    if IsWithQuery(s) {
      LastOperationIs(s, word);
      OperationsAreCapitals(s);
      if Operations(s) != [] {
        var last := Operations(s)[|Operations(s)| - 1];
        assert last in Operations(s) && Capitals(last);
        LowerIsExact(last, word);
      }
    } else {
      LettersLead(Upper(s));
      LeadsIsLetters(Upper(s), word);
      LowerIsExact(LeadingLetters(Upper(s)), word);
    }
  }

  lemma TypeIs(s: string)
    requires Tight(s)
    ensures TypeOfScrubbed(s) == if CallsProcedure(s) then "procedure" else if UpdatesOrInserts(s) then "upsert"
                                 else CommandType(s)
  {
    TightIsLStripped(s);
    TwoWordsBegin(Upper(s), "EXECUTE", "PROCEDURE");
    ThreeWordsBegin(Upper(s), "UPDATE", "OR", "INSERT");
  }

  // ----- the policy

  lemma CallLeads(s: string)
    requires CallsProcedure(s)
    ensures Commands(s, "EXECUTE") && !UpdatesOrInserts(s)
  {
    var gap: string, rest: string :|
      gap != "" && AllSpace(gap) && EndsWord(rest) && Upper(s) == "EXECUTE" + gap + "PROCEDURE" + rest;
    assert Upper(s) == "EXECUTE" + (gap + "PROCEDURE" + rest);
    assert Upper(s)[0] == 'E' && Upper(s)[7] == gap[0];
  }

  lemma UpsertLeads(s: string)
    requires UpdatesOrInserts(s)
    ensures Commands(s, "UPDATE")
  {
    var gap: string, rest: string :|
      gap != "" && AllSpace(gap) && Upper(s) == "UPDATE" + gap + rest && BeginsWithTwo(rest, "OR", "INSERT");
    assert Upper(s)[0] == 'U' && Upper(s)[6] == gap[0];
  }

  lemma OneCommand(s: string, a: string, b: string)
    requires Commands(s, a) && Commands(s, b) && Capitals(a) && Capitals(b)
    ensures a == b
  {
    CommandTypeIs(s, a);
    CommandTypeIs(s, b);
    LowerIsExact(a, b);
  }

  /** A procedure call. A first word PROCEDURE counts as one. */
  ghost predicate Calls(s: string) {
    CallsProcedure(s) || Commands(s, "PROCEDURE")
  }

  /** UPDATE OR INSERT. A first word UPSERT counts as one. */
  ghost predicate Upserts(s: string) {
    UpdatesOrInserts(s) || Commands(s, "UPSERT")
  }

  ghost predicate Updates(s: string) {
    Commands(s, "UPDATE") && !UpdatesOrInserts(s)
  }

  /** The types, told from the text. */
  ghost predicate IsOfType(s: string, statementType: string) {
    match statementType
    case "select" => Commands(s, "SELECT")
    case "insert" => Commands(s, "INSERT")
    case "update" => Updates(s)
    case "delete" => Commands(s, "DELETE")
    case "merge" => Commands(s, "MERGE")
    case "upsert" => Upserts(s)
    case "procedure" => Calls(s)
    case _ => false
  }

  lemma NoOtherCommand(s: string, word: string, other: string)
    requires Commands(s, word) && Capitals(word) && Capitals(other) && word != other
    ensures !Commands(s, other)
  {
    if Commands(s, other) {
      OneCommand(s, word, other);
    }
  }

  lemma TypeByCommand(s: string, word: string, statementType: string)
    requires Tight(s) && Capitals(word) && Lower(word) == statementType
    requires word != "EXECUTE" && statementType != "procedure" && statementType != "upsert"
    ensures TypeOfScrubbed(s) == statementType <==> Commands(s, word) && !UpdatesOrInserts(s)
  {
    TypeIs(s);
    CommandTypeIs(s, word);
    if CallsProcedure(s) {
      CallLeads(s);
      NoOtherCommand(s, "EXECUTE", word);
    }
  }

  lemma TypeOfCalls(s: string)
    requires Tight(s)
    ensures TypeOfScrubbed(s) == "procedure" <==> Calls(s)
  {
    TypeIs(s);
    ProcedureSpelling();
    CommandTypeIs(s, "PROCEDURE");
    if UpdatesOrInserts(s) {
      UpsertLeads(s);
      NoOtherCommand(s, "UPDATE", "PROCEDURE");
    }
  }

  lemma TypeOfUpserts(s: string)
    requires Tight(s)
    ensures TypeOfScrubbed(s) == "upsert" <==> Upserts(s)
  {
    TypeIs(s);
    UpsertSpelling();
    CommandTypeIs(s, "UPSERT");
    if CallsProcedure(s) {
      CallLeads(s);
      NoOtherCommand(s, "EXECUTE", "UPSERT");
    }
  }

  lemma ProcedureSpelling()
    ensures Lower("PROCEDURE") == "procedure" && "procedure" != "upsert"
  {
  }

  lemma UpsertSpelling()
    ensures Lower("UPSERT") == "upsert"
  {
  }

  lemma Spellings()
    ensures Lower("SELECT") == "select" && Lower("INSERT") == "insert" && Lower("UPDATE") == "update"
    ensures Lower("DELETE") == "delete" && Lower("MERGE") == "merge"
  {
  }

  lemma NotAnUpsert(s: string, word: string)
    requires Commands(s, word) && Capitals(word) && word != "UPDATE"
    ensures !UpdatesOrInserts(s)
  {
    if UpdatesOrInserts(s) {
      UpsertLeads(s);
      OneCommand(s, word, "UPDATE");
    }
  }

  /** The type is the one told from the text. */
  lemma TypeIsTold(s: string, statementType: string)
    requires Tight(s) && statementType in {"select", "insert", "update", "delete", "merge", "upsert", "procedure"}
    ensures TypeOfScrubbed(s) == statementType <==> IsOfType(s, statementType)
  {
    Spellings();
    if statementType == "procedure" {
      TypeOfCalls(s);
    } else if statementType == "upsert" {
      TypeOfUpserts(s);
    } else {
      var word := if statementType == "select" then "SELECT" else if statementType == "insert" then "INSERT"
                  else if statementType == "update" then "UPDATE" else if statementType == "delete" then "DELETE"
                  else "MERGE";
      TypeByCommand(s, word, statementType);
      if word != "UPDATE" && Commands(s, word) {
        NotAnUpsert(s, word);
      }
    }
  }

  /** What may run under a method. */
  ghost predicate MayRun(httpMethod: string, s: string) {
    || (httpMethod == "GET" && Commands(s, "SELECT"))
    || (httpMethod == "POST" && (Commands(s, "INSERT") || Calls(s)))
    || ((httpMethod == "PUT" || httpMethod == "PATCH")
        && (Updates(s) || Commands(s, "MERGE") || Upserts(s) || Calls(s)))
    || (httpMethod == "DELETE" && (Commands(s, "DELETE") || Calls(s)))
  }

  predicate IsMethod(httpMethod: string) {
    httpMethod in {"GET", "POST", "PUT", "PATCH", "DELETE"}
  }

  lemma MethodsAreKnown(httpMethod: string)
    ensures httpMethod in METHODS <==> IsMethod(httpMethod)
  {
    assert METHODS[0] == "GET" && METHODS[1] == "POST" && METHODS[2] == "PUT";
    assert METHODS[3] == "PATCH" && METHODS[4] == "DELETE";
  }

  lemma AllowedTypes(httpMethod: string, statementType: string)
    requires IsMethod(httpMethod)
    ensures statementType in Allowed(httpMethod)
            <==> || (httpMethod == "GET" && statementType == "select")
                 || (httpMethod == "POST" && statementType in {"insert", "procedure"})
                 || ((httpMethod == "PUT" || httpMethod == "PATCH")
                     && statementType in {"update", "merge", "upsert", "procedure"})
                 || (httpMethod == "DELETE" && statementType in {"delete", "procedure"})
  {
  }

  lemma AllowedMayRun(httpMethod: string, s: string)
    requires IsMethod(httpMethod) && Tight(s)
    ensures TypeOfScrubbed(s) in Allowed(httpMethod) <==> MayRun(httpMethod, s)
  {
    AllowedTypes(httpMethod, TypeOfScrubbed(s));
    TypeIsTold(s, "select");
    TypeIsTold(s, "insert");
    TypeIsTold(s, "update");
    TypeIsTold(s, "delete");
    TypeIsTold(s, "merge");
    TypeIsTold(s, "upsert");
    TypeIsTold(s, "procedure");
  }

  /** SET TRANSACTION, SET AUTODDL or SET TERM. */
  ghost predicate SetsTransaction(s: string) {
    exists what | what in {"TRANSACTION", "AUTODDL", "TERM"} :: BeginsWithTwo(Upper(s), "SET", what)
  }

  lemma ControlIsSetting(s: string)
    ensures ControlsTransaction(s) <==> SetsTransaction(s)
  {
    assert CONTROLLED[0] == "TRANSACTION" && CONTROLLED[1] == "AUTODDL" && CONTROLLED[2] == "TERM";
    forall what | what in CONTROLLED ensures StartsWithWords(Upper(s), ["SET", what]) <==> BeginsWithTwo(Upper(s), "SET", what) {
      TwoWordsBegin(Upper(s), "SET", what);
    }
  }

  /** Main result. A text is accepted exactly when the method is one of the five; its skeleton is one
      statement, with balanced parentheses and without a forbidden word; and the statement does not set
      the transaction and begins as the method asks. */
  lemma PolicyIff(sql: string, httpMethod: string)
    ensures var k, name := Skeleton(sql), Upper(httpMethod);
            var statements := Statements(Strip(k));
            Validate(sql, httpMethod).Valid?
            <==> && IsMethod(name) && |statements| == 1 && Balances(0, k) && Harmless(k)
                 && !SetsTransaction(Strip(statements[0])) && MayRun(name, Strip(statements[0]))
  {
    var k, name := Skeleton(sql), Upper(httpMethod);
    AcceptedIff(sql, httpMethod);
    MethodsAreKnown(name);
    HarmlessIsPermitted(k);
    if |Statements(Strip(k))| == 1 && IsMethod(name) {
      var statement := Strip(Statements(Strip(k))[0]);
      ControlIsSetting(statement);
      AllowedMayRun(name, statement);
    }
  }

  // ----- the verdict

  /** The verdict on the skeleton, in the order of the checks. */
  lemma VerdictOnSkeleton(sql: string, httpMethod: string)
    ensures var k, name := Skeleton(sql), Upper(httpMethod);
            var statements := Statements(Strip(k));
            Validate(sql, httpMethod)
            == if name !in METHODS then Invalid(UnsupportedMethod)
               else if |statements| != 1 then Invalid(NotOneStatement)
               else
                 var statement := Strip(statements[0]);
                 Decide(ControlsTransaction(statement), statement, TypeOfScrubbed(statement), name)
  {
    var k := Skeleton(sql);
    ValidationSeesOnlySkeleton(sql, httpMethod);
    SkeletonIsFixed(sql);
    if |Statements(Strip(k))| == 1 {
      assert !Blank(Statements(Strip(k))[0]);
      StatementIsScrubbed(sql);
    }
  }

  lemma StatementIsWhole(k: string)
    requires |Statements(Strip(k))| == 1
    ensures var statement := Strip(Statements(Strip(k))[0]);
            (Balances(0, statement) <==> Balances(0, k)) && Tokens(statement) == Tokens(k)
  {
    StatementIsAlike(Strip(k));
    StripIsAlike(k);
    AlikePermits(Strip(Statements(Strip(k))[0]), k);
  }

  /** The type of an accepted text is the one told from its statement. */
  lemma AcceptedTypeIsTold(sql: string, httpMethod: string)
    requires Validate(sql, httpMethod).Valid?
    ensures var statements := Statements(Strip(Skeleton(sql)));
            |statements| == 1 && IsOfType(Strip(statements[0]), Validate(sql, httpMethod).statementType)
  {
    var name := Upper(httpMethod);
    VerdictOnSkeleton(sql, httpMethod);
    MethodsAreKnown(name);
    AllowedIsTold(name, Strip(Statements(Strip(Skeleton(sql)))[0]));
  }

  lemma AllowedIsTold(name: string, statement: string)
    requires IsMethod(name) && Tight(statement) && TypeOfScrubbed(statement) in Allowed(name)
    ensures IsOfType(statement, TypeOfScrubbed(statement))
  {
    AllowedTypes(name, TypeOfScrubbed(statement));
    TypeIsTold(statement, TypeOfScrubbed(statement));
  }

  /** The reason given is the first that applies, in this order. */
  ghost predicate IsReason(k: string, name: string, statements: seq<string>, e: Error) {
    if !IsMethod(name) then e == UnsupportedMethod
    else if |statements| != 1 then e == NotOneStatement
    else
      var statement := Strip(statements[0]);
      if SetsTransaction(statement) then e == TransactionControl
      else if !Balances(0, k) then e == Unbalanced
      else if HoldsWord(k, "EXECUTE") && HoldsWord(k, "BLOCK") then e == ExecuteBlock
      else if exists w | IsForbidden(w) :: HoldsWord(k, w) then
        e.Forbidden? && IsForbidden(e.word) && HoldsWord(k, e.word)
      else e.Incompatible? && e.httpMethod == name
  }

  /** Every refusal states the first reason that applies. */
  lemma RefusalStatesReason(sql: string, httpMethod: string)
    requires Validate(sql, httpMethod).Invalid?
    ensures IsReason(Skeleton(sql), Upper(httpMethod), Statements(Strip(Skeleton(sql))), Validate(sql, httpMethod).error)
  {
    var k, name := Skeleton(sql), Upper(httpMethod);
    VerdictOnSkeleton(sql, httpMethod);
    MethodsAreKnown(name);
    if |Statements(Strip(k))| == 1 && IsMethod(name) {
      var statement := Strip(Statements(Strip(k))[0]);
      ControlIsSetting(statement);
      StatementIsWhole(k);
      FirstForbidden(k);
    }
  }

  lemma {:induction false} FirstOfIsFound(candidates: seq<string>, words: seq<string>)
    requires FirstOf(candidates, words) != ""
    ensures FirstOf(candidates, words) in candidates && FirstOf(candidates, words) in words
  {
    if candidates[0] !in words {
      FirstOfIsFound(candidates[1..], words);
    }
  }

  lemma FirstForbidden(k: string)
    ensures "EXECUTE" in Tokens(k) <==> HoldsWord(k, "EXECUTE")
    ensures "BLOCK" in Tokens(k) <==> HoldsWord(k, "BLOCK")
    ensures var w := FirstOf(FORBIDDEN, Tokens(k));
            if w == "" then forall v | IsForbidden(v) :: !HoldsWord(k, v) else IsForbidden(w) && HoldsWord(k, w)
  {
    CapitalWords();
    ForbiddenWords();
    forall w | w in FORBIDDEN || w == "EXECUTE" || w == "BLOCK" ensures w in Tokens(k) <==> HoldsWord(k, w) {
      TokensAreWords(k, w);
    }
    FirstOfFinds(FORBIDDEN, Tokens(k));
    if FirstOf(FORBIDDEN, Tokens(k)) != "" {
      FirstOfIsFound(FORBIDDEN, Tokens(k));
    }
  }
}

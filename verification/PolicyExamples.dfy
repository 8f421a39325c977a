/** Texts the policy accepts although they call no procedure and change no row. */
module PolicyExamples {
  import opened Text
  import opened Lexer
  import opened Splitting
  import opened Nesting
  import opened Pagination
  import opened PaginationTheorems
  import opened PolicyTheorems
  import opened PolicyMeaning
  import opened Validation
  import RewriteExamples

  /** Plain text is its own statement. */
  lemma PlainPolicy(s: string, httpMethod: string)
    requires IsQuiet(s) && Tight(s) && s != ""
    ensures Validate(s, httpMethod).Valid?
            <==> IsMethod(Upper(httpMethod)) && Harmless(s) && !SetsTransaction(s) && MayRun(Upper(httpMethod), s)
  {
    PlainIsCode(s);
    assert Skeleton(s) == SkeletonFrom(Normal, s);
    TightIsStripped(s);
    RewriteExamples.PlainStatements(s);
    RewriteExamples.QuietHasNoParens(s);
    BalanceSeesParens(0, s);
    PolicyIff(s, httpMethod);
  }

  predicate TwoWordText(s: string, a: string, b: string) {
    s == a + (" " + b) && RewriteExamples.IsWholeWord(a) && RewriteExamples.IsWholeWord(b)
  }

  lemma TwoWordsHeld(s: string, a: string, b: string, word: string)
    requires TwoWordText(s, a, b)
    ensures HoldsWord(s, word) <==> word == Upper(a) || word == Upper(b)
  {
    RewriteExamples.TwoWords(a, b);
    WordsAreRuns("", s, word);
    assert "" + s == s;
  }

  lemma Starts(s: string, a: string, b: string)
    requires TwoWordText(s, a, b) && Capitals(Upper(a)) && Upper(a)[0] != 'W' && Upper(a)[0] != 'S'
    ensures Commands(s, Upper(a)) && !SetsTransaction(s)
  {
    var u := Upper(s);
    UpperAppend(a, " " + b);
    assert Upper(" " + b)[0] == ' ';
    assert u[0] == Upper(a)[0] && u[|a|] == ' ';
  }

  lemma FirstWordIsEnough(s: string, a: string, b: string, httpMethod: string)
    requires TwoWordText(s, a, b) && IsQuiet(s) && Tight(s) && IsMethod(Upper(httpMethod))
    requires Capitals(Upper(a)) && Upper(a)[0] != 'W' && Upper(a)[0] != 'S'
    requires !IsForbidden(Upper(a)) && !IsForbidden(Upper(b)) && Upper(a) != "BLOCK" && Upper(b) != "BLOCK"
    requires Commands(s, Upper(a)) ==> MayRun(Upper(httpMethod), s)
    ensures Validate(s, httpMethod).Valid?
  {
    Starts(s, a, b);
    forall w | IsForbidden(w) || w == "BLOCK" ensures !HoldsWord(s, w) {
      TwoWordsHeld(s, a, b, w);
    }
    PlainPolicy(s, httpMethod);
  }

  const PROCEDURE := "procedure" + (" " + "p")
  const UPSERT := "upsert" + (" " + "t")

  lemma ProcedureSpells()
    ensures TwoWordText(PROCEDURE, "procedure", "p") && IsQuiet(PROCEDURE) && Tight(PROCEDURE)
    ensures Upper("procedure") == "PROCEDURE"
    ensures Upper("p") == "P"
  {
  }

  lemma UpsertSpells()
    ensures TwoWordText(UPSERT, "upsert", "t") && IsQuiet(UPSERT) && Tight(UPSERT)
    ensures Upper("upsert") == "UPSERT"
    ensures Upper("t") == "T"
  {
  }

  /** The word PROCEDURE alone passes for a procedure call. */
  lemma ProcedureWordIsEnough()
    ensures Validate(PROCEDURE, "POST").Valid?
  {
    ProcedureSpells();
    assert Upper("POST") == "POST";
    FirstWordIsEnough(PROCEDURE, "procedure", "p", "POST");
  }

  /** The word UPSERT alone passes for UPDATE OR INSERT. */
  lemma UpsertWordIsEnough()
    ensures Validate(UPSERT, "PUT").Valid?
  {
    UpsertSpells();
    assert Upper("PUT") == "PUT";
    FirstWordIsEnough(UPSERT, "upsert", "t", "PUT");
  }
}

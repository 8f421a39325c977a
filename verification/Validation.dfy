/** The SQL policy: which single statement may be published under which HTTP method. */
module Validation {
  import opened Text
  import opened Lexer
  import opened LexerTheorems
  import opened Scanners
  import opened Splitting
  import opened Nesting

  datatype Error =
    | UnsupportedMethod
    | NotOneStatement
    | TransactionControl
    | Unbalanced
    | ExecuteBlock
    | Forbidden(word: string)
    | Incompatible(statementType: string, httpMethod: string)

  datatype Verdict = Valid(statementType: string) | Invalid(error: Error)

  const METHODS := ["GET", "POST", "PUT", "PATCH", "DELETE"]

  /** The forbidden commands in alphabetical order, so that the first hit is the one reported. */
  const FORBIDDEN := ["ALTER", "COMMIT", "CONNECT", "CREATE", "DISCONNECT", "DROP", "GRANT", "REVOKE",
                      "ROLLBACK", "SAVEPOINT", "TRUNCATE"]

  const CONTROLLED := ["TRANSACTION", "AUTODDL", "TERM"]

  const OPERATIONS := ["SELECT", "INSERT", "UPDATE", "DELETE", "MERGE"]

  function Allowed(httpMethod: string): seq<string> {
    if httpMethod == "GET" then ["select"]
    else if httpMethod == "POST" then ["insert", "procedure"]
    else if httpMethod == "DELETE" then ["delete", "procedure"]
    else ["update", "merge", "upsert", "procedure"]
  }

  // ----- the regular expressions of the policy

  /** The words, separated by whitespace, stand at the start of `s` and end at a word boundary. */
  predicate StartsWithWords(s: string, words: seq<string>)
    decreases |words|
  {
    if words == [] then s == "" || !IsWord(s[0])
    else if !(words[0] <= s) then false
    else
      var rest := s[|words[0]|..];
      if |words| == 1 then rest == "" || !IsWord(rest[0])
      else rest != "" && IsSpace(rest[0]) && StartsWithWords(LStrip(rest), words[1..])
  }

  /** The pattern `[A-Z]+` at the start of `s`. */
  function LeadingLetters(s: string): string {
    if s != "" && 'A' <= s[0] <= 'Z' then [s[0]] + LeadingLetters(s[1..]) else ""
  }

  /** A whole word matches `[A-Z][A-Z_]*`. */
  predicate IsToken(w: string) {
    w != "" && 'A' <= w[0] <= 'Z' && forall c | c in w :: 'A' <= c <= 'Z' || c == '_'
  }

  function Filter(words: seq<string>, keep: string -> bool): (r: seq<string>)
    ensures forall w :: w in r <==> w in words && keep(w)
  {
    if words == [] then []
    else (if keep(words[0]) then [words[0]] else []) + Filter(words[1..], keep)
  }

  function Tokens(scrubbed: string): seq<string> {
    Filter(Words("", Upper(scrubbed)), IsToken)
  }

  function FirstOf(candidates: seq<string>, words: seq<string>): string {
    if candidates == [] then ""
    else if candidates[0] in words then candidates[0]
    else FirstOf(candidates[1..], words)
  }

  predicate ControlsTransaction(statement: string) {
    exists k | k in CONTROLLED :: StartsWithWords(Upper(statement), ["SET", k])
  }

  // ----- the policy

  predicate IsOperation(word: string) {
    word in OPERATIONS
  }

  function Operations(scrubbed: string): seq<string> {
    Filter(TopWords(0, "", scrubbed), IsOperation)
  }

  function TypeOfScrubbed(scrubbed: string): string {
    var upper := LStrip(Upper(scrubbed));
    if StartsWithWords(upper, ["EXECUTE", "PROCEDURE"]) then "procedure"
    else if StartsWithWords(upper, ["UPDATE", "OR", "INSERT"]) then "upsert"
    else
      var operations := Operations(scrubbed);
      if "WITH" <= upper then
        if operations == [] then "" else Lower(operations[|operations| - 1])
      else Lower(LeadingLetters(upper))
  }

  function StatementType(statement: string): string {
    TypeOfScrubbed(WithoutLiterals(WithoutComments(statement)))
  }

  function Judge(statement: string, httpMethod: string): Verdict {
    Decide(ControlsTransaction(statement), WithoutLiterals(statement), StatementType(statement), httpMethod)
  }

  function Decide(controls: bool, scrubbed: string, statementType: string, httpMethod: string): Verdict {
    if controls then Invalid(TransactionControl)
    else if !Balances(0, scrubbed) then Invalid(Unbalanced)
    else
      var tokens := Tokens(scrubbed);
      var forbidden := FirstOf(FORBIDDEN, tokens);
      if "EXECUTE" in tokens && "BLOCK" in tokens then Invalid(ExecuteBlock)
      else if forbidden != "" then Invalid(Forbidden(forbidden))
      else if statementType !in Allowed(httpMethod) then Invalid(Incompatible(statementType, httpMethod))
      else Valid(statementType)
  }

  function Validate(sql: string, httpMethod: string): Verdict {
    var name := Upper(httpMethod);
    var statements := Statements(Strip(WithoutComments(sql)));
    if name !in METHODS then Invalid(UnsupportedMethod)
    else if |statements| != 1 || Strip(statements[0]) == "" then Invalid(NotOneStatement)
    else Judge(Strip(statements[0]), name)
  }

  /** The policy as the service runs it, over the scanners. */
  method ValidateQuery(sql: string, httpMethod: string) returns (verdict: Verdict)
    ensures verdict == Validate(sql, httpMethod)
  {
    var name := Upper(httpMethod);
    if name !in METHODS {
      return Invalid(UnsupportedMethod);
    }
    var clean := StripComments(sql);
    var statements := SplitStatements(Strip(clean));
    if |statements| != 1 || Strip(statements[0]) == "" {
      return Invalid(NotOneStatement);
    }
    var statement := Strip(statements[0]);
    if ControlsTransaction(statement) {
      return Invalid(TransactionControl);
    }
    var balanced := Balanced(statement);
    if !balanced {
      return Invalid(Unbalanced);
    }
    var scrubbed := StripLiterals(statement);
    var tokens := Tokens(scrubbed);
    if "EXECUTE" in tokens && "BLOCK" in tokens {
      return Invalid(ExecuteBlock);
    }
    var forbidden := FirstOf(FORBIDDEN, tokens);
    if forbidden != "" {
      return Invalid(Forbidden(forbidden));
    }
    var statementType := DetectStatementType(statement);
    if statementType !in Allowed(name) {
      return Invalid(Incompatible(statementType, name));
    }
    return Valid(statementType);
  }

  method DetectStatementType(statement: string) returns (statementType: string)
    ensures statementType == StatementType(statement)
  {
    var plain := StripComments(statement);
    var scrubbed := StripLiterals(plain);
    var upper := LStrip(Upper(scrubbed));
    if StartsWithWords(upper, ["EXECUTE", "PROCEDURE"]) {
      return "procedure";
    }
    if StartsWithWords(upper, ["UPDATE", "OR", "INSERT"]) {
      return "upsert";
    }
    var top := TopLevelWords(scrubbed);
    var operations := Filter(top, IsOperation);
    if "WITH" <= upper {
      return if operations == [] then "" else Lower(operations[|operations| - 1]);
    }
    return Lower(LeadingLetters(upper));
  }
}

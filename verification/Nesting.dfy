/** Parentheses: the balance check, the words outside all of them, and the tree both stand for. */
module Nesting {
  import opened Text
  import opened Lexer
  import opened Scanners

  /** Text whose parentheses pair up. */
  datatype Nest =
    | End
    | Char(c: char, rest: Nest)
    | Group(inner: Nest, rest: Nest)

  function Flat(t: Nest): string {
    match t
    case End => ""
    case Char(c, rest) => [c] + Flat(rest)
    case Group(inner, rest) => "(" + Flat(inner) + ")" + Flat(rest)
  }

  /** The text with every outermost group replaced by one space. */
  function Outline(t: Nest): string {
    match t
    case End => ""
    case Char(c, rest) => [c] + Outline(rest)
    case Group(_, rest) => " " + Outline(rest)
  }

  lemma {:induction false} GroupText(inner: Nest, rest: Nest, s: string)
    ensures Flat(Group(inner, rest)) + s == "(" + (Flat(inner) + (")" + Flat(rest) + s))
    ensures (Flat(Group(inner, rest)) + s)[1..] == Flat(inner) + (")" + Flat(rest) + s)
  {
  }

  /** Parentheses occur only as groups. */
  predicate WellNested(t: Nest) {
    match t
    case End => true
    case Char(c, rest) => c != '(' && c != ')' && WellNested(rest)
    case Group(inner, rest) => WellNested(inner) && WellNested(rest)
  }

  // ----- balance

  /** The running depth never drops below zero and ends at zero. */
  predicate Balances(depth: nat, s: string)
    decreases |s|
  {
    if s == "" then depth == 0
    else if s[0] == '(' then Balances(depth + 1, s[1..])
    else if s[0] == ')' then depth > 0 && Balances(depth - 1, s[1..])
    else Balances(depth, s[1..])
  }

  method Balanced(sql: string) returns (ok: bool)
    ensures ok == Balances(0, WithoutLiterals(sql))
  {
    var depth := 0;
    var text := StripLiterals(sql);
    for i := 0 to |text|
      invariant depth >= 0
      invariant Balances(depth, text[i..]) == Balances(0, text)
    {
      assert text[i..][1..] == text[i + 1..];
      if text[i] == '(' {
        depth := depth + 1;
      } else if text[i] == ')' {
        depth := depth - 1;
        if depth < 0 {
          return false;
        }
      }
    }
    return depth == 0;
  }

  /** Opening `depth` more groups around the start of `s`. */
  lemma {:induction false} FlatBalances(depth: nat, t: Nest, s: string)
    requires WellNested(t)
    ensures Balances(depth, Flat(t) + s) == Balances(depth, s)
    decreases t
  {
    match t
    case End => assert "" + s == s;
    case Char(c, rest) =>
      assert ([c] + Flat(rest) + s)[1..] == Flat(rest) + s;
      FlatBalances(depth, rest, s);
    case Group(inner, rest) =>
      var after := ")" + Flat(rest) + s;
      GroupText(inner, rest, s);
      FlatBalances(depth + 1, inner, after);
      assert after[1..] == Flat(rest) + s;
      FlatBalances(depth, rest, s);
  }

  /** Reads the longest well nested prefix of a text that closes `depth` groups. */
  lemma {:induction false} ReadNest(depth: nat, s: string) returns (t: Nest, tail: string)
    requires Balances(depth, s)
    ensures WellNested(t) && s == Flat(t) + tail && Balances(depth, tail)
    ensures if depth == 0 then tail == "" else tail != "" && tail[0] == ')'
    decreases |s|
  {
    if s == "" || s[0] == ')' {
      return End, s;
    } else if s[0] == '(' {
      var inner, after := ReadNest(depth + 1, s[1..]);
      var rest;
      rest, tail := ReadNest(depth, after[1..]);
      t := Group(inner, rest);
      GroupText(inner, rest, tail);
      assert ")" + Flat(rest) + tail == after;
    } else {
      t, tail := ReadNest(depth, s[1..]);
      t := Char(s[0], t);
    }
  }

  /** The balance check accepts exactly the well nested texts. */
  lemma {:induction false} BalancedIffNested(s: string)
    ensures Balances(0, s) <==> exists t :: WellNested(t) && Flat(t) == s
  {
    if Balances(0, s) {
      var t, tail := ReadNest(0, s);
      assert Flat(t) == s;
    }
    forall t | WellNested(t) && Flat(t) == s ensures Balances(0, s) {
      FlatBalances(0, t, "");
      assert Flat(t) + "" == s;
    }
  }

  // ----- words

  function Flush(current: string): seq<string> {
    if current == "" then [] else [Upper(current)]
  }

  /** The maximal runs of word characters, upper-cased; `current` is the run being read. */
  function Words(current: string, s: string): seq<string>
    decreases |s|
  {
    if s == "" then Flush(current)
    else if IsWord(s[0]) then Words(current + [s[0]], s[1..])
    else Flush(current) + Words("", s[1..])
  }

  /** The scan of the top-level words from a given depth. Below the top, nothing is collected. */
  function TopWords(depth: nat, current: string, s: string): seq<string>
    decreases |s|
  {
    if s == "" then Flush(current)
    else if s[0] == '(' then
      (if depth == 0 then Flush(current) else []) + TopWords(depth + 1, if depth == 0 then "" else current, s[1..])
    else if s[0] == ')' then TopWords(if depth == 0 then 0 else depth - 1, current, s[1..])
    else if depth > 0 then TopWords(depth, current, s[1..])
    else if IsWord(s[0]) then TopWords(depth, current + [s[0]], s[1..])
    else Flush(current) + TopWords(depth, "", s[1..])
  }

  method TopLevelWords(sql: string) returns (words: seq<string>)
    ensures words == TopWords(0, "", sql)
  {
    words := [];
    var depth := 0;
    var current := "";
    for i := 0 to |sql|
      invariant depth >= 0
      invariant words + TopWords(depth, current, sql[i..]) == TopWords(0, "", sql)
    {
      var c := sql[i];
      TopStep(words, depth, current, sql[i..]);
      assert sql[i..][1..] == sql[i + 1..];
      if c == '(' {
        if depth == 0 && current != "" {
          words := words + [Upper(current)];
          current := "";
        }
        depth := depth + 1;
      } else if c == ')' {
        depth := if depth - 1 > 0 then depth - 1 else 0;
      } else if depth == 0 && IsWord(c) {
        current := current + [c];
      } else if depth == 0 && current != "" {
        words := words + [Upper(current)];
        current := "";
      }
    }
    if current != "" {
      words := words + [Upper(current)];
    }
  }

  /** One round of the scan, after `words` have been collected. */
  lemma TopStep(words: seq<string>, depth: nat, current: string, s: string)
    requires s != ""
    ensures words + TopWords(depth, current, s)
            == if s[0] == '(' then
                 if depth == 0 then words + Flush(current) + TopWords(1, "", s[1..])
                 else words + TopWords(depth + 1, current, s[1..])
               else if s[0] == ')' then words + TopWords(if depth > 0 then depth - 1 else 0, current, s[1..])
               else if depth == 0 && IsWord(s[0]) then words + TopWords(0, current + [s[0]], s[1..])
               else if depth == 0 then words + Flush(current) + TopWords(0, "", s[1..])
               else words + TopWords(depth, current, s[1..])
  {
  }

  /** Inside a group the scan of the top-level words only counts parentheses. */
  lemma {:induction false} GroupIsSkipped(depth: nat, t: Nest, s: string)
    requires depth > 0 && WellNested(t)
    ensures TopWords(depth, "", Flat(t) + s) == TopWords(depth, "", s)
    decreases t
  {
    match t
    case End => assert "" + s == s;
    case Char(c, rest) =>
      assert ([c] + Flat(rest) + s)[1..] == Flat(rest) + s;
      GroupIsSkipped(depth, rest, s);
    case Group(inner, rest) =>
      var after := ")" + Flat(rest) + s;
      GroupText(inner, rest, s);
      GroupIsSkipped(depth + 1, inner, after);
      assert after[1..] == Flat(rest) + s;
      GroupIsSkipped(depth, rest, s);
  }

  lemma {:induction false} TopWordsOfOutline(current: string, t: Nest)
    requires WellNested(t)
    ensures TopWords(0, current, Flat(t)) == Words(current, Outline(t))
    decreases t
  {
    match t
    case End =>
    case Char(c, rest) =>
      assert Flat(t)[1..] == Flat(rest) && Outline(t)[1..] == Outline(rest);
      TopWordsOfOutline(if IsWord(c) then current + [c] else "", rest);
    case Group(inner, rest) =>
      var after := ")" + Flat(rest);
      assert Flat(t)[1..] == Flat(inner) + after;
      GroupIsSkipped(1, inner, after);
      assert after[1..] == Flat(rest);
      assert Outline(t)[1..] == Outline(rest);
      TopWordsOfOutline("", rest);
  }

  /** On text that passes the balance check, the top-level words are the words left when every
      outermost group is replaced by a separator. */
  lemma TopLevelIsOutline(s: string) returns (t: Nest)
    requires Balances(0, s)
    ensures WellNested(t) && Flat(t) == s
    ensures TopWords(0, "", s) == Words("", Outline(t))
  {
    var tail;
    t, tail := ReadNest(0, s);
    assert Flat(t) == s;
    TopWordsOfOutline("", t);
  }

  /** What stands inside a group never shows at the top level. */
  lemma {:induction false} GroupContentIsInvisible(t: Nest, u: Nest)
    requires WellNested(t) && WellNested(u) && Outline(t) == Outline(u)
    ensures TopWords(0, "", Flat(t)) == TopWords(0, "", Flat(u))
  {
    TopWordsOfOutline("", t);
    TopWordsOfOutline("", u);
  }
}

/** The scanners that remove comments and literals, each as the loop it is, each refining the
    reference lexer. */
module Scanners {
  import opened Text
  import opened Lexer
  import opened LexerTheorems

  /** `str.find`: the first position of `needle` at or after `from`, or -1. */
  function Find(needle: string, s: string, from: nat): (k: int)
    ensures k == -1 || (from <= k <= |s| && needle <= s[k..])
    decreases |s| - from
  {
    if from > |s| then -1
    else if needle <= s[from..] then from
    else Find(needle, s, from + 1)
  }

  lemma UncommentFirst(m: Mode, s: string, i: nat) returns (t: Step)
    requires i < |s|
    ensures t == Read(true, m, s[i..]) && i + t.width <= |s|
    ensures Uncomment(Lex(true, m, s[i..])) == UncommentItem(t.item) + Uncomment(Lex(true, t.mode, s[i + t.width..]))
  {
    var rest;
    t, rest := LexFirst(true, m, s[i..]);
    assert rest == s[i + t.width..];
    assert ([t.item] + Lex(true, t.mode, rest))[1..] == Lex(true, t.mode, rest);
  }

  lemma {:induction false} InsideIsDropped(m: Mode, s: string, i: nat)
    requires i < |s| && Read(true, m, s[i..]) == Step(Inside(s[i]), 1, m)
    ensures Uncomment(Lex(true, m, s[i..])) == Uncomment(Lex(true, m, s[i + 1..]))
  {
    var t := UncommentFirst(m, s, i);
    assert [] + Uncomment(Lex(true, m, s[i + 1..])) == Uncomment(Lex(true, m, s[i + 1..]));
  }

  /** Skipping to the line break is what the lexer does inside a line comment. */
  lemma {:induction false} SkipLine(s: string, i: nat)
    requires i <= |s|
    ensures var k := Find("\n", s, i);
            Uncomment(Lex(true, LineComment, s[i..]))
            == Uncomment(Lex(true, Normal, s[if k < 0 then |s| else k..]))
    decreases |s| - i
  {
    if i == |s| {
      assert Find("\n", s, i + 1) == -1;
    } else if s[i] == '\n' {
      var line := UncommentFirst(LineComment, s, i);
      var code := UncommentFirst(Normal, s, i);
      assert line == code && Find("\n", s, i) == i;
    } else {
      InsideIsDropped(LineComment, s, i);
      SkipLine(s, i + 1);
    }
  }

  lemma {:induction false} SkipBlock(s: string, i: nat)
    requires i <= |s|
    ensures var k := Find("*/", s, i);
            Uncomment(Lex(true, BlockComment, s[i..]))
            == Uncomment(Lex(true, Normal, s[if k < 0 then |s| else k + 2..]))
    decreases |s| - i
  {
    if i == |s| {
      assert Find("*/", s, i + 1) == -1;
    } else if "*/" <= s[i..] {
      var t := UncommentFirst(BlockComment, s, i);
      assert [] + Uncomment(Lex(true, Normal, s[i + 2..])) == Uncomment(Lex(true, Normal, s[i + 2..]));
    } else {
      InsideIsDropped(BlockComment, s, i);
      SkipBlock(s, i + 1);
    }
  }

  function QuoteMode(quoted: bool): Mode {
    if quoted then Literal else Normal
  }

  /** The result, once `output` has been emitted and the scan stands at `index`. */
  ghost function Uncommented(output: string, s: string, quoted: bool, index: nat): string
    requires index <= |s|
  {
    output + Source(Uncomment(Lex(true, QuoteMode(quoted), s[index..])))
  }

  /** A round that copies what the lexer reads outside comments. */
  lemma CopyStep(output: string, s: string, quoted: bool, index: nat) returns (t: Step)
    requires index < |s| && !IsCommentItem(Read(true, QuoteMode(quoted), s[index..]).item)
    ensures t == Read(true, QuoteMode(quoted), s[index..]) && index + t.width <= |s|
    ensures Uncommented(output, s, quoted, index)
            == Uncommented(output + Spell(t.item), s, t.mode == Literal, index + t.width)
  {
    var rest;
    t, rest := UncommentedNext(output, s, quoted, index);
    StaysUncommented(quoted, s[index..]);
  }

  lemma StaysUncommented(quoted: bool, x: string)
    requires x != "" && !IsCommentItem(Read(true, QuoteMode(quoted), x).item)
    ensures var m := Read(true, QuoteMode(quoted), x).mode;
            QuoteMode(m == Literal) == m
  {
  }

  /** A round that skips a comment. */
  lemma {:induction false} LineStep(output: string, s: string, index: nat)
    requires index < |s| && "--" <= s[index..]
    ensures var k := Find("\n", s, index + 2);
            Uncommented(output, s, false, index) == Uncommented(output + " ", s, false, if k < 0 then |s| else k)
  {
    var _, rest := UncommentedNext(output, s, false, index);
    SkipLine(s, index + 2);
  }

  lemma {:induction false} BlockStep(output: string, s: string, index: nat)
    requires index < |s| && "/*" <= s[index..] && !("--" <= s[index..])
    ensures var k := Find("*/", s, index + 2);
            Uncommented(output, s, false, index) == Uncommented(output + " ", s, false, if k < 0 then |s| else k + 2)
  {
    var _, rest := UncommentedNext(output, s, false, index);
    SkipBlock(s, index + 2);
  }

  /** How a quote is read. */
  lemma QuoteIsRead(s: string, quoted: bool, index: nat)
    requires index < |s| && s[index] == QUOTE
    ensures Read(true, QuoteMode(quoted), s[index..])
            == if !quoted then Step(Open, 1, Literal)
               else if index + 1 < |s| && s[index + 1] == QUOTE then Step(Body(QUOTE), 2, Literal)
               else Step(Close, 1, Normal)
  {
    assert index + 1 < |s| ==> s[index..][..2] == [s[index], s[index + 1]];
  }

  /** One step of the lexer, spelled after the comments are removed. */
  lemma UncommentedNext(output: string, s: string, quoted: bool, index: nat)
    returns (t: Step, rest: string)
    requires index < |s|
    ensures t == Read(true, QuoteMode(quoted), s[index..])
    ensures index + t.width <= |s| && rest == s[index + t.width..]
    ensures Uncommented(output, s, quoted, index)
            == (output + if IsCommentItem(t.item) then " " else Spell(t.item))
               + Source(Uncomment(Lex(true, t.mode, rest)))
  {
    t, rest := LexFirst(true, QuoteMode(quoted), s[index..]);
    assert rest == s[index + t.width..];
    var tail := Uncomment(Lex(true, t.mode, rest));
    assert Uncomment([t.item] + Lex(true, t.mode, rest)) == UncommentItem(t.item) + tail;
    SourceAppend(UncommentItem(t.item), tail);
    UncommentedText(t.item);
    Associate(output, Source(UncommentItem(t.item)), Source(tail));
  }

  lemma UncommentedText(x: Item)
    requires x.LineOpen? || x.BlockOpen? || !IsCommentItem(x)
    ensures Source(UncommentItem(x)) == if IsCommentItem(x) then " " else Spell(x)
  {
    assert [x][1..] == [] && [Code(' ')][1..] == [];
  }

  lemma QuoteStep(output: string, s: string, quoted: bool, index: nat)
    requires index < |s| && s[index] == QUOTE
    ensures quoted && index + 1 < |s| && s[index + 1] == QUOTE ==>
              Uncommented(output, s, quoted, index) == Uncommented(output + [QUOTE] + [QUOTE], s, quoted, index + 2)
    ensures !(quoted && index + 1 < |s| && s[index + 1] == QUOTE) ==>
              Uncommented(output, s, quoted, index) == Uncommented(output + [QUOTE], s, !quoted, index + 1)
  {
    QuoteIsRead(s, quoted, index);
    var _ := CopyStep(output, s, quoted, index);
    assert output + "''" == output + [QUOTE] + [QUOTE];
  }

  lemma CharStep(output: string, s: string, quoted: bool, index: nat)
    requires index < |s| && s[index] != QUOTE
    requires !quoted ==> !("--" <= s[index..]) && !("/*" <= s[index..])
    ensures Uncommented(output, s, quoted, index) == Uncommented(output + [s[index]], s, quoted, index + 1)
  {
    var _ := CopyStep(output, s, quoted, index);
  }

  method StripComments(sql: string) returns (output: string)
    ensures output == WithoutComments(sql)
  {
    output := "";
    var quoted := false;
    var index := 0;
    while index < |sql|
      invariant index <= |sql|
      invariant Uncommented(output, sql, quoted, index) == WithoutComments(sql)
    {
      if sql[index] == QUOTE {
        QuoteStep(output, sql, quoted, index);
        output := output + [sql[index]];
        if quoted && index + 1 < |sql| && sql[index + 1] == QUOTE {
          output := output + [QUOTE];
          index := index + 2;
          continue;
        }
        quoted := !quoted;
        index := index + 1;
        continue;
      }
      if !quoted && "--" <= sql[index..] {
        LineStep(output, sql, index);
        var newline := Find("\n", sql, index + 2);
        index := if newline < 0 then |sql| else newline;
        output := output + " ";
        continue;
      }
      if !quoted && "/*" <= sql[index..] {
        BlockStep(output, sql, index);
        var closing := Find("*/", sql, index + 2);
        index := if closing < 0 then |sql| else closing + 2;
        output := output + " ";
        continue;
      }
      CharStep(output, sql, quoted, index);
      output := output + [sql[index]];
      index := index + 1;
    }
  }

  /** The loop of `StripLiterals` as a recursion; `open` tells its inner loop from its outer one. */
  function LiteralLoop(output: string, sql: string, open: bool, i: nat): string
    requires i <= |sql|
    decreases |sql| - i
  {
    if i == |sql| then output
    else if !open then
      if sql[i] == QUOTE then LiteralLoop(output + "''", sql, true, i + 1)
      else LiteralLoop(output + [sql[i]], sql, false, i + 1)
    else if sql[i] == QUOTE && i + 1 < |sql| && sql[i + 1] == QUOTE then
      LiteralLoop(output, sql, true, i + 2)
    else LiteralLoop(output, sql, sql[i] != QUOTE, i + 1)
  }

  lemma ScrubItemText(x: Item)
    ensures Source(ScrubItem(x)) == ScrubText(x)
  {
    assert [Open, Close][1..] == [Close];
  }

  /** One step of the lexer, spelled after scrubbing. */
  lemma {:induction false} ScrubbedStep(m: Mode, x: string) returns (t: Step, rest: string)
    requires x != ""
    ensures t == Read(false, m, x) && rest == x[t.width..] && |rest| < |x|
    ensures Source(Scrub(Lex(false, m, x))) == ScrubText(t.item) + Source(Scrub(Lex(false, t.mode, rest)))
  {
    t, rest := ScrubStep(false, m, x);
    SourceAppend(ScrubItem(t.item), Scrub(Lex(false, t.mode, rest)));
    ScrubItemText(t.item);
  }

  function ScrubText(x: Item): string {
    if x == Open then "''" else if x.Body? || x == Close then "" else Spell(x)
  }

  lemma {:induction false} LiteralLoopStep(output: string, sql: string, open: bool, i: nat)
    returns (text: string, o: bool, j: nat)
    requires i < |sql|
    ensures i < j <= |sql|
    ensures LiteralLoop(output, sql, open, i) == LiteralLoop(output + text, sql, o, j)
    ensures Source(Scrub(Lex(false, QuoteMode(open), sql[i..])))
            == text + Source(Scrub(Lex(false, QuoteMode(o), sql[j..])))
  {
    var t := LiteralLoopReads(output, sql, open, i);
    text, o, j := ScrubText(t.item), t.mode == Literal, i + t.width;
    var _, rest := ScrubbedStep(QuoteMode(open), sql[i..]);
    assert rest == sql[j..];
  }

  lemma LiteralLoopReads(output: string, sql: string, open: bool, i: nat) returns (t: Step)
    requires i < |sql|
    ensures t == Read(false, QuoteMode(open), sql[i..]) && i + t.width <= |sql| && QuoteMode(t.mode == Literal) == t.mode
    ensures LiteralLoop(output, sql, open, i)
            == LiteralLoop(output + ScrubText(t.item), sql, t.mode == Literal, i + t.width)
  {
    t := Read(false, QuoteMode(open), sql[i..]);
    assert i + 1 < |sql| ==> sql[i..][..2] == [sql[i], sql[i + 1]];
    assert output + "" == output;
  }

  lemma {:induction false} LiteralLoopRefinesLexer(output: string, sql: string, open: bool, i: nat)
    requires i <= |sql|
    ensures LiteralLoop(output, sql, open, i) == output + Source(Scrub(Lex(false, QuoteMode(open), sql[i..])))
    decreases |sql| - i
  {
    if i < |sql| {
      var text, o, j := LiteralLoopStep(output, sql, open, i);
      LiteralLoopRefinesLexer(output + text, sql, o, j);
      Associate(output, text, Source(Scrub(Lex(false, QuoteMode(o), sql[j..]))));
    }
  }

  method StripLiterals(sql: string) returns (output: string)
    ensures output == WithoutLiterals(sql)
  {
    output := "";
    var i := 0;
    while i < |sql|
      invariant i <= |sql|
      invariant LiteralLoop(output, sql, false, i) == LiteralLoop("", sql, false, 0)
    {
      if sql[i] == QUOTE {
        output := output + "''";
        i := i + 1;
        var open := true;
        while open && i < |sql|
          invariant i <= |sql|
          invariant LiteralLoop(output, sql, open, i) == LiteralLoop("", sql, false, 0)
          decreases |sql| - i, open
        {
          if sql[i] == QUOTE && i + 1 < |sql| && sql[i + 1] == QUOTE {
            i := i + 2;
          } else if sql[i] == QUOTE {
            i := i + 1;
            open := false;
          } else {
            i := i + 1;
          }
        }
      } else {
        output := output + [sql[i]];
        i := i + 1;
      }
    }
    LiteralLoopRefinesLexer("", sql, false, 0);
    assert sql[0..] == sql;
  }
}

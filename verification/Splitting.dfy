/** Splitting SQL text into statements at the semicolons outside literals. */
module Splitting {
  import opened Text
  import opened Lexer
  import opened LexerTheorems
  import opened Scanners

  function Segments(items: seq<Item>): (r: seq<seq<Item>>)
    ensures r != []
  {
    if items == [] then [[]]
    else
      var r := Segments(items[1..]);
      if items[0] == Code(';') then [[]] + r else [[items[0]] + r[0]] + r[1..]
  }

  function Texts(segments: seq<seq<Item>>): (r: seq<string>)
    ensures |r| == |segments|
    ensures forall k :: 0 <= k < |r| ==> r[k] == Source(segments[k])
  {
    if segments == [] then [] else [Source(segments[0])] + Texts(segments[1..])
  }

  predicate Blank(s: string) {
    Strip(s) == ""
  }

  function NonBlank(texts: seq<string>): (r: seq<string>)
    ensures forall t :: t in r <==> t in texts && !Blank(t)
  {
    if texts == [] then []
    else (if Blank(texts[0]) then [] else [texts[0]]) + NonBlank(texts[1..])
  }

  /** The non-blank texts between semicolons outside literals. */
  function Statements(sql: string): seq<string> {
    NonBlank(Texts(Segments(Lex(false, Normal, sql))))
  }

  function Join(texts: seq<string>, separator: string): string {
    if texts == [] then ""
    else if |texts| == 1 then texts[0]
    else texts[0] + separator + Join(texts[1..], separator)
  }

  /** The result, once `done` has been collected, `current` holds the start of the next statement
      and `s` is still to be scanned. */
  ghost function Collected(done: seq<string>, current: string, m: Mode, s: string): seq<string> {
    var texts := Texts(Segments(Lex(false, m, s)));
    done + NonBlank([current + texts[0]] + texts[1..])
  }

  /** The statements collected and the start of the next one, after one more item. */
  function After(done: seq<string>, current: string, x: Item): (seq<string>, string) {
    if x != Code(';') then (done, current + Spell(x))
    else (if Blank(current) then done else done + [current], "")
  }

  lemma {:induction false} PrependItem(x: Item, r: seq<seq<Item>>, current: string)
    requires r != []
    ensures var texts := Texts([[x] + r[0]] + r[1..]);
            [current + texts[0]] + texts[1..] == [(current + Spell(x)) + Texts(r)[0]] + Texts(r)[1..]
  {
    var joined := [[x] + r[0]] + r[1..];
    assert ([x] + r[0])[1..] == r[0];
    assert current + (Spell(x) + Source(r[0])) == (current + Spell(x)) + Source(r[0]);
  }

  lemma {:induction false} NewSegment(r: seq<seq<Item>>, current: string)
    requires r != []
    ensures var texts := Texts([[]] + r);
            [current + texts[0]] + texts[1..] == [current] + ([""  + Texts(r)[0]] + Texts(r)[1..])
  {
    assert ([[]] + r)[1..] == r;
    assert "" + Texts(r)[0] == Texts(r)[0];
    assert current + "" == current;
  }

  lemma CollectedStep(done: seq<string>, current: string, m: Mode, s: string)
    returns (t: Step, rest: string)
    requires s != ""
    ensures t == Read(false, m, s) && rest == s[t.width..]
    ensures var next := After(done, current, t.item);
            Collected(done, current, m, s) == Collected(next.0, next.1, t.mode, rest)
  {
    t, rest := LexFirst(false, m, s);
    var items := Lex(false, t.mode, rest);
    var r := Segments(items);
    assert ([t.item] + items)[1..] == items;
    if t.item == Code(';') {
      NewSegment(r, current);
      var later := ["" + Texts(r)[0]] + Texts(r)[1..];
      Associate(done, if Blank(current) then [] else [current], NonBlank(later));
      assert ([current] + later)[1..] == later;
      assert done + [] == done;
    } else {
      PrependItem(t.item, r, current);
    }
  }

  /** The loop of `SplitStatements` as a recursion. */
  function SplitLoop(done: seq<string>, current: string, sql: string, quoted: bool, i: nat): seq<string>
    requires i <= |sql|
    decreases |sql| - i
  {
    if i == |sql| then if Blank(current) then done else done + [current]
    else if sql[i] == QUOTE then
      if quoted && i + 1 < |sql| && sql[i + 1] == QUOTE
      then SplitLoop(done, current + [QUOTE] + [QUOTE], sql, quoted, i + 2)
      else SplitLoop(done, current + [QUOTE], sql, !quoted, i + 1)
    else if sql[i] == ';' && !quoted then
      SplitLoop(if Blank(current) then done else done + [current], "", sql, quoted, i + 1)
    else SplitLoop(done, current + [sql[i]], sql, quoted, i + 1)
  }

  lemma LastStatement(done: seq<string>, current: string, m: Mode)
    ensures Collected(done, current, m, "") == if Blank(current) then done else done + [current]
  {
    assert current + "" == current;
    assert Lex(false, m, "") == [];
    assert Texts([[]]) == [""];
    assert NonBlank([current]) == if Blank(current) then [] else [current];
    assert done + [] == done;
  }

  lemma SplitLoopReads(done: seq<string>, current: string, sql: string, quoted: bool, i: nat)
    requires i < |sql|
    ensures var t := Read(false, QuoteMode(quoted), sql[i..]);
            && t.mode == QuoteMode(t.mode == Literal) && i + t.width <= |sql|
            && var next := After(done, current, t.item);
               SplitLoop(done, current, sql, quoted, i)
               == SplitLoop(next.0, next.1, sql, t.mode == Literal, i + t.width)
  {
    assert i + 1 < |sql| ==> sql[i..][..2] == [sql[i], sql[i + 1]];
    assert current + [QUOTE] + [QUOTE] == current + "''";
  }

  /** One round: the loop and the lexer move to the same place. */
  lemma SplitLoopStep(done: seq<string>, current: string, sql: string, quoted: bool, i: nat)
    returns (d: seq<string>, c: string, q: bool, j: nat)
    requires i < |sql|
    ensures i < j <= |sql|
    ensures SplitLoop(done, current, sql, quoted, i) == SplitLoop(d, c, sql, q, j)
    ensures Collected(done, current, QuoteMode(quoted), sql[i..]) == Collected(d, c, QuoteMode(q), sql[j..])
  {
    var t, rest := CollectedStep(done, current, QuoteMode(quoted), sql[i..]);
    var next := After(done, current, t.item);
    SplitLoopReads(done, current, sql, quoted, i);
    d, c, q, j := next.0, next.1, t.mode == Literal, i + t.width;
    assert rest == sql[j..];
  }

  lemma {:induction false} SplitLoopRefinesLexer(done: seq<string>, current: string, sql: string, quoted: bool, i: nat)
    requires i <= |sql|
    ensures SplitLoop(done, current, sql, quoted, i) == Collected(done, current, QuoteMode(quoted), sql[i..])
    decreases |sql| - i
  {
    if i == |sql| {
      LastStatement(done, current, QuoteMode(quoted));
    } else {
      var d, c, q, j := SplitLoopStep(done, current, sql, quoted, i);
      SplitLoopRefinesLexer(d, c, sql, q, j);
    }
  }

  method SplitStatements(sql: string) returns (statements: seq<string>)
    ensures statements == Statements(sql)
  {
    statements := [];
    var current := "";
    var quoted := false;
    var i := 0;
    while i < |sql|
      invariant i <= |sql|
      invariant SplitLoop(statements, current, sql, quoted, i) == SplitLoop([], "", sql, false, 0)
    {
      var c := sql[i];
      if c == QUOTE {
        current := current + [c];
        if quoted && i + 1 < |sql| && sql[i + 1] == QUOTE {
          current := current + [QUOTE];
          i := i + 2;
          continue;
        }
        quoted := !quoted;
      } else if c == ';' && !quoted {
        if Strip(current) != "" {
          statements := statements + [current];
        }
        current := "";
      } else {
        current := current + [c];
      }
      i := i + 1;
    }
    if Strip(current) != "" {
      statements := statements + [current];
    }
    SplitLoopIsStatements(sql);
  }

  lemma {:induction false} SplitLoopIsStatements(sql: string)
    ensures SplitLoop([], "", sql, false, 0) == Statements(sql)
  {
    SplitLoopRefinesLexer([], "", sql, false, 0);
    assert sql[0..] == sql;
    var texts := Texts(Segments(Lex(false, Normal, sql)));
    assert "" + texts[0] == texts[0];
    assert [texts[0]] + texts[1..] == texts;
  }

  lemma {:induction false} FirstText(first: seq<Item>, rest: seq<seq<Item>>)
    ensures Texts([first] + rest) == [Source(first)] + Texts(rest)
  {
    assert ([first] + rest)[1..] == rest;
  }

  lemma {:induction false} JoinFirst(first: string, rest: seq<string>)
    requires rest != []
    ensures Join([first] + rest, ";") == first + ";" + Join(rest, ";")
  {
    assert ([first] + rest)[1..] == rest;
  }

  lemma {:induction false} JoinLonger(more: string, first: string, rest: seq<string>)
    ensures Join([more + first] + rest, ";") == more + Join([first] + rest, ";")
  {
    assert ([more + first] + rest)[1..] == rest && ([first] + rest)[1..] == rest;
    if rest != [] {
      assert (more + first) + ";" + Join(rest, ";") == more + (first + ";" + Join(rest, ";"));
    }
  }

  /** The segments are a partition of the text: the semicolons between them rebuild it. */
  lemma {:induction false} SegmentsRebuild(items: seq<Item>)
    ensures Join(Texts(Segments(items)), ";") == Source(items)
  {
    if items != [] {
      SegmentsRebuild(items[1..]);
      if items[0] == Code(';') {
        SemicolonRebuilds(Segments(items[1..]));
      } else {
        ItemRebuilds(items[0], Segments(items[1..]));
      }
    }
  }

  lemma {:induction false} SemicolonRebuilds(r: seq<seq<Item>>)
    requires r != []
    ensures Join(Texts([[]] + r), ";") == ";" + Join(Texts(r), ";")
  {
    FirstText([], r);
    JoinFirst("", Texts(r));
  }

  lemma {:induction false} ItemRebuilds(x: Item, r: seq<seq<Item>>)
    requires r != []
    ensures Join(Texts([[x] + r[0]] + r[1..]), ";") == Spell(x) + Join(Texts(r), ";")
  {
    FirstText([x] + r[0], r[1..]);
    FirstText(r[0], r[1..]);
    assert r == [r[0]] + r[1..];
    SourceFirst(x, r[0]);
    JoinLonger(Spell(x), Source(r[0]), Texts(r[1..]));
  }

  lemma {:induction false} SegmentsHoldNoSemicolon(items: seq<Item>)
    ensures forall g | g in Segments(items) :: Code(';') !in g
  {
    if items != [] {
      SegmentsHoldNoSemicolon(items[1..]);
      assert Segments(items[1..])[0] in Segments(items[1..]);
    }
  }

  lemma {:induction false} FirstSegmentIsPrefix(items: seq<Item>)
    ensures Source(Segments(items)[0]) <= Source(items)
  {
    if items != [] && items[0] != Code(';') {
      FirstSegmentIsPrefix(items[1..]);
      assert ([items[0]] + Segments(items[1..])[0])[1..] == Segments(items[1..])[0];
    }
  }

  /** Lexed on its own, every segment but the first, which goes on from `m`, starts outside
      literals and yields its own items. */
  predicate Relex(comments: bool, m: Mode, segments: seq<seq<Item>>) {
    forall k :: 0 <= k < |segments| ==>
      Lex(comments, if k == 0 then m else Normal, Source(segments[k])) == segments[k]
  }

  lemma {:induction false} SegmentsRelex(comments: bool, m: Mode, s: string)
    requires m == Normal || m == Literal
    requires CommentFree(Lex(comments, m, s))
    ensures Relex(comments, m, Segments(Lex(comments, m, s)))
    decreases |s|
  {
    if s != "" {
      var t, rest := LexFirst(comments, m, s);
      var items := Lex(comments, t.mode, rest);
      assert t.item in Lex(comments, m, s) && forall x | x in items :: x in Lex(comments, m, s);
      SegmentsRelex(comments, t.mode, rest);
      if t.item == Code(';') {
        assert ([t.item] + items)[1..] == items;
      } else {
        FirstSegmentIsPrefix(items);
        LexIsFaithful(comments, t.mode, rest);
        RelexFirst(comments, m, s, Segments(items)[0]);
        assert ([t.item] + items)[1..] == items;
      }
    }
  }

  lemma {:induction false} RelexFirst(comments: bool, m: Mode, s: string, first: seq<Item>)
    requires m == Normal || m == Literal
    requires s != "" && !IsCommentItem(Read(comments, m, s).item)
    requires var t := Read(comments, m, s);
             Source(first) <= s[t.width..] && Lex(comments, t.mode, Source(first)) == first
    ensures var joined := [Read(comments, m, s).item] + first;
            Lex(comments, m, Source(joined)) == joined
  {
    var t := Read(comments, m, s);
    ReadBefore(comments, comments, m, s, Source(first));
    Prepend(comments, m, t.item, t.mode, first);
  }

  lemma {:induction false} PrependSegment(a: seq<Item>, b: seq<Item>)
    requires Code(';') !in a
    ensures Segments(a + b) == [a + Segments(b)[0]] + Segments(b)[1..]
  {
    if a == [] {
      assert a + b == b;
      assert [] + Segments(b)[0] == Segments(b)[0];
    } else {
      PrependSegment(a[1..], b);
      assert (a + b)[1..] == a[1..] + b;
      assert [a[0]] + (a[1..] + Segments(b)[0]) == a + Segments(b)[0];
    }
  }

  function ScrubEach(segments: seq<seq<Item>>): (r: seq<seq<Item>>)
    ensures |r| == |segments|
    ensures forall k :: 0 <= k < |r| ==> r[k] == Scrub(segments[k])
  {
    if segments == [] then [] else [Scrub(segments[0])] + ScrubEach(segments[1..])
  }

  lemma {:induction false} ScrubFirst(first: seq<Item>, rest: seq<seq<Item>>)
    ensures ScrubEach([first] + rest) == [Scrub(first)] + ScrubEach(rest)
  {
    assert ([first] + rest)[1..] == rest;
  }

  /** Scrubbing and cutting into segments commute. */
  lemma {:induction false} ScrubSegments(items: seq<Item>)
    ensures Segments(Scrub(items)) == ScrubEach(Segments(items))
  {
    if items != [] {
      var x, rest := items[0], items[1..];
      var r := Segments(rest);
      ScrubSegments(rest);
      if x == Code(';') {
        ScrubFirst([], r);
        assert Scrub(items) == [x] + Scrub(rest) && ([x] + Scrub(rest))[1..] == Scrub(rest);
      } else {
        PrependSegment(ScrubItem(x), Scrub(rest));
        ScrubFirst(r[0], r[1..]);
        ScrubFirst([x] + r[0], r[1..]);
        assert r == [r[0]] + r[1..] && ([x] + r[0])[1..] == r[0];
      }
    }
  }

  /** Comment recognition makes no difference to text without comments. */
  lemma {:induction false} CommentFreeScansAlike(m: Mode, s: string)
    requires CommentFree(Lex(true, m, s))
    ensures Lex(false, m, s) == Lex(true, m, s)
    decreases |s|
  {
    if s != "" {
      var t, rest := LexFirst(true, m, s);
      CommentFreeStep(true, m, s);
      CommentFreeScansAlike(t.mode, rest);
      var same, tail := LexFirst(false, m, s);
      assert same == t;
    }
  }

  // ----- main results

  /** The pieces between semicolons rebuild the text; each starts outside literals and holds no
      semicolon outside its own. The statements are the non-blank pieces, in order. */
  lemma StatementsPartition(sql: string) returns (pieces: seq<string>)
    ensures Join(pieces, ";") == sql
    ensures Statements(sql) == NonBlank(pieces)
    ensures forall k :: 0 <= k < |pieces| ==> Code(';') !in Lex(false, Normal, pieces[k])
    ensures forall k :: 0 <= k < |pieces| - 1 ==> EndMode(false, Normal, pieces[k]) == Normal
  {
    pieces := Texts(Segments(Lex(false, Normal, sql)));
    SegmentsRebuild(Lex(false, Normal, sql));
    LexIsFaithful(false, Normal, sql);
    forall k | 0 <= k < |pieces| ensures Code(';') !in Lex(false, Normal, pieces[k]) {
      PieceIsClean(sql, k);
    }
    SegmentsEndOutside(Normal, sql);
  }

  lemma {:induction false} PieceIsClean(sql: string, k: nat)
    requires k < |Segments(Lex(false, Normal, sql))|
    ensures Code(';') !in Lex(false, Normal, Source(Segments(Lex(false, Normal, sql))[k]))
  {
    var segments := Segments(Lex(false, Normal, sql));
    SegmentsHoldNoSemicolon(Lex(false, Normal, sql));
    QuoteScanIsCommentFree(Normal, sql);
    SegmentsRelex(false, Normal, sql);
    assert segments[k] in segments;
  }

  /** A semicolon ends a piece only outside literals. */
  lemma {:induction false} SegmentsEndOutside(m: Mode, s: string)
    requires m == Normal || m == Literal
    ensures var g := Segments(Lex(false, m, s));
            forall k :: 0 <= k < |g| - 1 ==>
              EndMode(false, if k == 0 then m else Normal, Source(g[k])) == Normal
    decreases |s|
  {
    if s != "" {
      var t, rest := LexFirst(false, m, s);
      var items := Lex(false, t.mode, rest);
      var r := Segments(items);
      assert ([t.item] + items)[1..] == items;
      SegmentsEndOutside(t.mode, rest);
      if t.item != Code(';') && |r| > 1 {
        FirstSegmentIsPrefix(items);
        LexIsFaithful(false, t.mode, rest);
        FirstEndsAlike(m, s, r[0]);
      }
    }
  }

  /** A piece ends in the state it would end in without its first symbol, read apart. */
  lemma {:induction false} FirstEndsAlike(m: Mode, s: string, first: seq<Item>)
    requires (m == Normal || m == Literal) && s != ""
    requires var t := Read(false, m, s); Source(first) <= s[t.width..]
    ensures var t := Read(false, m, s);
            EndMode(false, m, Source([t.item] + first)) == EndMode(false, t.mode, Source(first))
  {
    var t := Read(false, m, s);
    SourceFirst(t.item, first);
    ReadBefore(false, false, m, s, Source(first));
    assert (Spell(t.item) + Source(first))[t.width..] == Source(first);
  }

  /** Statements split from text without comments are themselves without comments. */
  lemma {:induction false} StatementsStayCommentFree(sql: string)
    requires CommentFree(Lex(true, Normal, sql))
    ensures forall t | t in Statements(sql) :: CommentFree(Lex(true, Normal, t)) && WithoutComments(t) == t
  {
    var items := Lex(true, Normal, sql);
    CommentFreeScansAlike(Normal, sql);
    SegmentsRelex(true, Normal, sql);
    SegmentsKeepItems(items);
    forall t | t in Statements(sql) ensures CommentFree(Lex(true, Normal, t)) && WithoutComments(t) == t {
      var k :| 0 <= k < |Segments(items)| && Texts(Segments(items))[k] == t;
      assert Segments(items)[k] in Segments(items);
      CommentFreeIsFixed(Lex(true, Normal, t));
      LexIsFaithful(true, Normal, t);
    }
  }

  lemma {:induction false} SegmentsKeepItems(items: seq<Item>)
    ensures forall g, x | g in Segments(items) && x in g :: x in items
  {
    if items != [] {
      SegmentsKeepItems(items[1..]);
      assert Segments(items[1..])[0] in Segments(items[1..]);
    }
  }
}

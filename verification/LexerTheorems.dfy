/** What the reference lexer guarantees about the texts derived from it: removing comments and
    literals never fuses two pieces of the text into a new symbol. */
module LexerTheorems {
  import opened Text
  import opened Lexer

  /** Where the text left by a scan that started in `m` starts. */
  function Restart(m: Mode): Mode {
    if m == Literal then Literal else Normal
  }

  lemma {:induction false} Prepend(comments: bool, m: Mode, x: Item, n: Mode, rest: seq<Item>)
    requires Read(comments, m, Spell(x) + Source(rest)) == Step(x, |Spell(x)|, n)
    requires Lex(comments, n, Source(rest)) == rest
    ensures Lex(comments, m, Source([x] + rest)) == [x] + rest
  {
    assert ([x] + rest)[1..] == rest;
    assert (Spell(x) + Source(rest))[|Spell(x)|..] == Source(rest);
  }

  lemma {:induction false} Unfold(comments: bool, m: Mode, s: string)
    requires s != ""
    ensures var t := Read(comments, m, s);
            var items := Lex(comments, t.mode, s[t.width..]);
            && Lex(comments, m, s)[0] == t.item
            && Lex(comments, m, s)[1..] == items
            && Uncomment(Lex(comments, m, s)) == UncommentItem(t.item) + Uncomment(items)
            && Scrub(Lex(comments, m, s)) == ScrubItem(t.item) + Scrub(items)
  {
    var t := Read(comments, m, s);
    assert Lex(comments, m, s)[1..] == Lex(comments, t.mode, s[t.width..]);
  }

  /** One step of the lexer, after which literals are emptied. */
  lemma ScrubStep(comments: bool, m: Mode, s: string) returns (t: Step, rest: string)
    requires s != ""
    ensures t == Read(comments, m, s) && rest == s[t.width..] && |rest| < |s|
    ensures Scrub(Lex(comments, m, s)) == ScrubItem(t.item) + Scrub(Lex(comments, t.mode, rest))
  {
    t, rest := LexFirst(comments, m, s);
    assert ([t.item] + Lex(comments, t.mode, rest))[1..] == Lex(comments, t.mode, rest);
  }

  lemma UncommentStep(m: Mode, s: string) returns (t: Step, rest: string)
    requires s != ""
    ensures t == Read(true, m, s) && rest == s[t.width..] && |rest| < |s|
    ensures Uncomment(Lex(true, m, s)) == UncommentItem(t.item) + Uncomment(Lex(true, t.mode, rest))
  {
    t, rest := LexFirst(true, m, s);
    assert ([t.item] + Lex(true, t.mode, rest))[1..] == Lex(true, t.mode, rest);
  }

  lemma {:induction false} CommentFreeStep(comments: bool, m: Mode, s: string)
    requires s != "" && CommentFree(Lex(comments, m, s))
    ensures var t := Read(comments, m, s);
            !IsCommentItem(t.item) && CommentFree(Lex(comments, t.mode, s[t.width..]))
  {
    var t, rest := LexFirst(comments, m, s);
    assert t.item in [t.item] + Lex(comments, t.mode, rest);
    assert forall x | x in Lex(comments, t.mode, rest) :: x in [t.item] + Lex(comments, t.mode, rest);
  }

  /** A symbol is read the same way when the text after it changes, as long as that text starts
      with the same character, with a space, or is empty. */
  lemma ReadBefore(before: bool, comments: bool, m: Mode, s: string, tail: string)
    requires s != "" && (comments ==> before)
    requires !IsCommentItem(Read(before, m, s).item)
    requires var rest := s[Read(before, m, s).width..];
             tail == "" || tail[0] == ' ' || (rest != "" && tail[0] == rest[0])
    ensures var t := Read(before, m, s);
            Read(comments, Restart(m), Spell(t.item) + tail) == t
  {
    var t := Read(before, m, s);
    assert t.width < |s| ==> s[t.width..][0] == s[t.width];
    assert t.width == 1 && |s| > 1 ==> s[..2] == [s[0], s[1]];
    assert t.width == 1 && tail != "" ==> (Spell(t.item) + tail)[..2] == [s[0], tail[0]];
    assert t.width == 2 ==> (Spell(t.item) + tail)[..2] == s[..2];
  }

  /** A scan outside comments yields text that starts with the first character read, or with the
      space of a comment. */
  lemma {:induction false} FirstUncommented(m: Mode, s: string)
    requires m == Normal || m == Literal
    ensures var r := Source(Uncomment(Lex(true, m, s)));
            if s == "" then r == "" else r != "" && (r[0] == s[0] || r[0] == ' ')
  {
    if s != "" {
      var t := Read(true, m, s);
      Unfold(true, m, s);
      SourceAppend(UncommentItem(t.item), Uncomment(Lex(true, t.mode, s[t.width..])));
    }
  }

  /** Lexing the text without comments, with or without comment recognition, finds the same items
      with every comment turned into one space: no two half-symbols or literals fuse. */
  lemma {:induction false} UncommentedLexesAlike(comments: bool, m: Mode, s: string)
    ensures var r := Uncomment(Lex(true, m, s));
            Lex(comments, Restart(m), Source(r)) == r
    decreases |s|
  {
    if s != "" {
      var t, rest := UncommentStep(m, s);
      var items := Uncomment(Lex(true, t.mode, rest));
      UncommentedLexesAlike(comments, t.mode, rest);
      if IsCommentItem(t.item) {
        CommentItem(comments, m, s, items);
      } else {
        KeepItem(comments, m, s, items);
      }
    }
  }

  lemma {:induction false} CommentItem(comments: bool, m: Mode, s: string, items: seq<Item>)
    requires s != "" && IsCommentItem(Read(true, m, s).item)
    requires Lex(comments, Restart(Read(true, m, s).mode), Source(items)) == items
    ensures var r := UncommentItem(Read(true, m, s).item) + items;
            Lex(comments, Restart(m), Source(r)) == r
  {
    assert Restart(m) == Restart(Read(true, m, s).mode) == Normal;
    if UncommentItem(Read(true, m, s).item) == [] {
      assert [] + items == items;
    } else {
      Prepend(comments, Normal, Code(' '), Normal, items);
    }
  }

  lemma {:induction false} KeepItem(comments: bool, m: Mode, s: string, items: seq<Item>)
    requires s != "" && !IsCommentItem(Read(true, m, s).item)
    requires var t := Read(true, m, s);
             && items == Uncomment(Lex(true, t.mode, s[t.width..]))
             && Lex(comments, t.mode, Source(items)) == items
    ensures var r := UncommentItem(Read(true, m, s).item) + items;
            Lex(comments, Restart(m), Source(r)) == r
  {
    var t := Read(true, m, s);
    FirstUncommented(t.mode, s[t.width..]);
    ReadBefore(true, comments, m, s, Source(items));
    Prepend(comments, Restart(m), t.item, t.mode, items);
  }

  lemma {:induction false} FirstScrubbed(comments: bool, u: string)
    requires u != "" && CommentFree(Lex(comments, Normal, u))
    ensures var r := Source(Scrub(Lex(comments, Normal, u)));
            r != "" && r[0] == u[0]
  {
    var t := Read(comments, Normal, u);
    Unfold(comments, Normal, u);
    SourceAppend(ScrubItem(t.item), Scrub(Lex(comments, t.mode, u[t.width..])));
    assert t.item == Open ==> ScrubItem(t.item)[0] == Open;
  }

  /** The items lex to themselves. When they follow a literal that is still open, their text also
      cannot double the quote put in front of it. */
  predicate Settled(comments: bool, m: Mode, items: seq<Item>) {
    && Lex(comments, Normal, Source(items)) == items
    && (m == Literal ==> Source(items) == "" || Source(items)[0] != QUOTE)
  }

  /** Emptying the literals of comment-free text creates neither a literal nor a comment. */
  lemma {:induction false} ScrubbedLexesAlike(comments: bool, m: Mode, u: string)
    requires m == Normal || m == Literal
    requires CommentFree(Lex(comments, m, u))
    ensures Settled(comments, m, Scrub(Lex(comments, m, u)))
    decreases |u|
  {
    if u != "" {
      var t, rest := ScrubStep(comments, m, u);
      var items := Scrub(Lex(comments, t.mode, rest));
      CommentFreeStep(comments, m, u);
      ScrubbedLexesAlike(comments, t.mode, rest);
      if t.item.Code? {
        CodeItem(comments, u, items);
      } else if t.item == Open {
        EmptyLiteral(comments, items);
      } else {
        LiteralItem(comments, u, items);
      }
    }
  }

  lemma {:induction false} LiteralItem(comments: bool, u: string, items: seq<Item>)
    requires u != ""
    requires var t := Read(comments, Literal, u);
             && CommentFree(Lex(comments, t.mode, u[t.width..]))
             && items == Scrub(Lex(comments, t.mode, u[t.width..]))
             && Settled(comments, t.mode, items)
    ensures Settled(comments, Literal, ScrubItem(Read(comments, Literal, u).item) + items)
  {
    var t := Read(comments, Literal, u);
    assert [] + items == items;
    if t.mode == Normal && t.width < |u| {
      assert u[..2] == [u[0], u[1]];
      FirstScrubbed(comments, u[t.width..]);
    }
  }

  lemma {:induction false} CodeItem(comments: bool, u: string, items: seq<Item>)
    requires u != "" && Read(comments, Normal, u).item.Code?
    requires CommentFree(Lex(comments, Normal, u[1..]))
    requires items == Scrub(Lex(comments, Normal, u[1..])) && Settled(comments, Normal, items)
    ensures Settled(comments, Normal, ScrubItem(Code(u[0])) + items)
  {
    if u[1..] != "" {
      FirstScrubbed(comments, u[1..]);
    }
    ReadBefore(comments, comments, Normal, u, Source(items));
    Prepend(comments, Normal, Code(u[0]), Normal, items);
  }

  lemma EmptyLiteral(comments: bool, items: seq<Item>)
    requires Settled(comments, Literal, items)
    ensures Settled(comments, Normal, ScrubItem(Open) + items)
  {
    assert Source(items) != "" ==> ("'" + Source(items))[1] == Source(items)[0];
    Prepend(comments, Literal, Close, Normal, items);
    Prepend(comments, Normal, Open, Literal, [Close] + items);
    assert [Open] + ([Close] + items) == [Open, Close] + items;
  }

  lemma {:induction false} UncommentIsCommentFree(items: seq<Item>)
    ensures CommentFree(Uncomment(items))
  {
    if items != [] {
      UncommentIsCommentFree(items[1..]);
    }
  }

  lemma {:induction false} ScrubKeepsCommentFree(items: seq<Item>)
    requires CommentFree(items)
    ensures CommentFree(Scrub(items))
  {
    if items != [] {
      ScrubKeepsCommentFree(items[1..]);
    }
  }

  lemma {:induction false} CommentFreeIsFixed(items: seq<Item>)
    requires CommentFree(items)
    ensures Uncomment(items) == items
  {
    if items != [] {
      CommentFreeIsFixed(items[1..]);
      assert items[0] in items;
      assert items == [items[0]] + items[1..];
    }
  }

  lemma {:induction false} ScrubIsIdempotent(items: seq<Item>)
    ensures Scrub(Scrub(items)) == Scrub(items)
  {
    if items != [] {
      ScrubIsIdempotent(items[1..]);
      ScrubAppend(ScrubItem(items[0]), Scrub(items[1..]));
      assert Scrub(ScrubItem(items[0])) == ScrubItem(items[0]);
    }
  }

  // ----- main results

  /** The two passes that the service always applies together are the single-pass lexer. */
  lemma TwoPassesAreOne(s: string)
    ensures WithoutLiterals(WithoutComments(s)) == Skeleton(s)
  {
    UncommentedLexesAlike(false, Normal, s);
  }

  /** Text without comments holds no comment opener outside its literals, and the literals are the
      original ones, in order, character for character. */
  lemma {:induction false} CommentsLeaveNoTrace(s: string)
    ensures CommentFree(Lex(true, Normal, WithoutComments(s)))
    ensures Literals(Lex(true, Normal, WithoutComments(s))) == Literals(Lex(true, Normal, s))
    ensures WithoutComments(WithoutComments(s)) == WithoutComments(s)
  {
    var r := Uncomment(Lex(true, Normal, s));
    UncommentedLexesAlike(true, Normal, s);
    UncommentIsCommentFree(Lex(true, Normal, s));
    UncommentKeepsLiterals(Normal, s);
    CommentFreeIsFixed(r);
  }

  lemma {:induction false} UncommentKeepsLiterals(m: Mode, s: string)
    ensures var items := Lex(true, m, s);
            && Literals(Uncomment(items)) == Literals(items)
            && (m == Literal ==> LiteralBody(Uncomment(items)) == LiteralBody(items))
    decreases |s|
  {
    if s != "" {
      var t, tail := UncommentStep(m, s);
      var _, _ := LexFirst(true, m, s);
      UncommentKeepsLiterals(t.mode, tail);
      LiteralsFollow(t.item, Lex(true, t.mode, tail));
    }
  }

  /** What one item adds to the literals, before and after the comments are removed. */
  lemma {:induction false} LiteralsFollow(x: Item, items: seq<Item>)
    requires Literals(Uncomment(items)) == Literals(items)
    requires x.Open? || x.Body? ==> LiteralBody(Uncomment(items)) == LiteralBody(items)
    ensures Literals(UncommentItem(x) + Uncomment(items)) == Literals([x] + items)
    ensures !IsCommentItem(x) && !x.Code? ==>
              LiteralBody(UncommentItem(x) + Uncomment(items)) == LiteralBody([x] + items)
  {
    var rest := Uncomment(items);
    assert ([x] + items)[1..] == items;
    if x.Inside? || x.BlockClose? {
      assert [] + rest == rest;
    } else if x.LineOpen? || x.BlockOpen? {
      assert ([Code(' ')] + rest)[1..] == rest;
    } else {
      assert ([x] + rest)[1..] == rest;
    }
  }

  /** Emptying literals twice changes nothing, on any text. */
  lemma WithoutLiteralsIsIdempotent(s: string)
    ensures WithoutLiterals(WithoutLiterals(s)) == WithoutLiterals(s)
  {
    QuoteScanIsCommentFree(Normal, s);
    ScrubbedLexesAlike(false, Normal, s);
    ScrubIsIdempotent(Lex(false, Normal, s));
  }

  lemma {:induction false} QuoteScanIsCommentFree(m: Mode, s: string)
    requires m == Normal || m == Literal
    ensures CommentFree(Lex(false, m, s))
    decreases |s|
  {
    if s != "" {
      var t := Read(false, m, s);
      QuoteScanIsCommentFree(t.mode, s[t.width..]);
    }
  }

  /** The skeleton is stable under every scrubbing step. */
  lemma SkeletonIsFixed(s: string)
    ensures WithoutComments(Skeleton(s)) == Skeleton(s)
    ensures WithoutLiterals(Skeleton(s)) == Skeleton(s)
    ensures Skeleton(Skeleton(s)) == Skeleton(s)
  {
    var u := WithoutComments(s);
    CommentsLeaveNoTrace(s);
    ScrubbedLexesAlike(true, Normal, u);
    ScrubKeepsCommentFree(Lex(true, Normal, u));
    UncommentedLexesAlike(true, Normal, s);
    assert Skeleton(s) == Source(Scrub(Lex(true, Normal, u)));
    CommentFreeIsFixed(Lex(true, Normal, Skeleton(s)));
    LexIsFaithful(true, Normal, Skeleton(s));
    TwoPassesAreOne(s);
    WithoutLiteralsIsIdempotent(u);
    TwoPassesAreOne(Skeleton(s));
  }
}

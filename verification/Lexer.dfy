/** The reference lexer: one left-to-right pass over SQL text with four states. Literals follow
    section 5.3 of ISO/IEC 9075-2 (a quote inside a literal is doubled), comments section 5.2. */
module Lexer {
  import opened Text

  datatype Mode = Normal | Literal | LineComment | BlockComment

  /** What the lexer reads in one step. `Body(QUOTE)` stands for a doubled quote. */
  datatype Item =
    | Code(c: char)
    | Open
    | Body(c: char)
    | Close
    | LineOpen
    | BlockOpen
    | Inside(c: char)
    | BlockClose

  datatype Step = Step(item: Item, width: nat, mode: Mode)

  function Spell(x: Item): string {
    match x
    case Code(c) => [c]
    case Open => "'"
    case Body(c) => if c == QUOTE then "''" else [c]
    case Close => "'"
    case LineOpen => "--"
    case BlockOpen => "/*"
    case Inside(c) => [c]
    case BlockClose => "*/"
  }

  /** One step of the lexer. With `comments` off it is the two-state quote scanner, for which
      comment openers are ordinary characters. */
  function Read(comments: bool, m: Mode, s: string): (t: Step)
    requires s != ""
    ensures 1 <= t.width <= |s| && s[..t.width] == Spell(t.item)
  {
    match m
    case Normal =>
      if s[0] == QUOTE then Step(Open, 1, Literal)
      else if comments && "--" <= s then Step(LineOpen, 2, LineComment)
      else if comments && "/*" <= s then Step(BlockOpen, 2, BlockComment)
      else Step(Code(s[0]), 1, Normal)
    case Literal =>
      if s[0] != QUOTE then Step(Body(s[0]), 1, Literal)
      else if "''" <= s then Step(Body(QUOTE), 2, Literal)
      else Step(Close, 1, Normal)
    case LineComment =>
      // The line break that ends the comment is code again.
      if s[0] == '\n' then Step(Code('\n'), 1, Normal) else Step(Inside(s[0]), 1, LineComment)
    case BlockComment =>
      if "*/" <= s then Step(BlockClose, 2, Normal) else Step(Inside(s[0]), 1, BlockComment)
  }

  function Lex(comments: bool, m: Mode, s: string): (items: seq<Item>)
    decreases |s|
  {
    if s == "" then []
    else
      var t := Read(comments, m, s);
      [t.item] + Lex(comments, t.mode, s[t.width..])
  }

  /** The state in which the lexer stops. */
  function EndMode(comments: bool, m: Mode, s: string): Mode
    decreases |s|
  {
    if s == "" then m
    else
      var t := Read(comments, m, s);
      EndMode(comments, t.mode, s[t.width..])
  }

  function Source(items: seq<Item>): string {
    if items == [] then "" else Spell(items[0]) + Source(items[1..])
  }

  function UncommentItem(x: Item): seq<Item> {
    match x
    case LineOpen => [Code(' ')]
    case BlockOpen => [Code(' ')]
    case Inside(_) => []
    case BlockClose => []
    case _ => [x]
  }

  /** Every comment becomes one space. */
  function Uncomment(items: seq<Item>): seq<Item> {
    if items == [] then [] else UncommentItem(items[0]) + Uncomment(items[1..])
  }

  function ScrubItem(x: Item): seq<Item> {
    match x
    case Open => [Open, Close]
    case Body(_) => []
    case Close => []
    case _ => [x]
  }

  /** Every literal, terminated or not, becomes an empty one. */
  function Scrub(items: seq<Item>): seq<Item> {
    if items == [] then [] else ScrubItem(items[0]) + Scrub(items[1..])
  }

  /** The bodies of the literals, in order; an opening item starts a new one. */
  function Literals(items: seq<Item>): (r: seq<seq<char>>)
  {
    if items == [] then []
    else if items[0].Open? then [LiteralBody(items[1..])] + Literals(items[1..])
    else Literals(items[1..])
  }

  function LiteralBody(items: seq<Item>): string {
    if items == [] || !items[0].Body? then "" else [items[0].c] + LiteralBody(items[1..])
  }

  predicate IsCommentItem(x: Item) {
    x.LineOpen? || x.BlockOpen? || x.Inside? || x.BlockClose?
  }

  predicate CommentFree(items: seq<Item>) {
    forall x | x in items :: !IsCommentItem(x)
  }

  // ----- the texts the service works with

  function WithoutComments(s: string): string {
    Source(Uncomment(Lex(true, Normal, s)))
  }

  function WithoutLiterals(s: string): string {
    Source(Scrub(Lex(false, Normal, s)))
  }

  /** The output of the single-pass lexer: code as it is, a space for every comment, an empty
      literal for every literal. */
  function Skeleton(s: string): string {
    Source(Scrub(Uncomment(Lex(true, Normal, s))))
  }

  // ----- spelling and concatenation

  lemma Associate<T>(a: seq<T>, b: seq<T>, c: seq<T>)
    ensures (a + b) + c == a + (b + c)
  {
  }

  lemma {:induction false} SourceAppend(a: seq<Item>, b: seq<Item>)
    ensures Source(a + b) == Source(a) + Source(b)
  {
    if a == [] {
      assert a + b == b;
    } else {
      assert (a + b)[1..] == a[1..] + b;
      SourceAppend(a[1..], b);
    }
  }

  lemma {:induction false} UncommentAppend(a: seq<Item>, b: seq<Item>)
    ensures Uncomment(a + b) == Uncomment(a) + Uncomment(b)
  {
    if a == [] {
      assert a + b == b;
    } else {
      assert (a + b)[1..] == a[1..] + b;
      UncommentAppend(a[1..], b);
    }
  }

  lemma {:induction false} ScrubAppend(a: seq<Item>, b: seq<Item>)
    ensures Scrub(a + b) == Scrub(a) + Scrub(b)
  {
    if a == [] {
      assert a + b == b;
    } else {
      assert (a + b)[1..] == a[1..] + b;
      ScrubAppend(a[1..], b);
    }
  }

  lemma {:induction false} SourceFirst(x: Item, rest: seq<Item>)
    ensures Source([x] + rest) == Spell(x) + Source(rest)
  {
    assert ([x] + rest)[1..] == rest;
  }

  lemma LexFirst(comments: bool, m: Mode, s: string) returns (t: Step, rest: string)
    requires s != ""
    ensures t == Read(comments, m, s) && rest == s[t.width..] && s == Spell(t.item) + rest && |rest| < |s|
    ensures Lex(comments, m, s) == [t.item] + Lex(comments, t.mode, rest)
    ensures EndMode(comments, m, s) == EndMode(comments, t.mode, rest)
  {
    t := Read(comments, m, s);
    rest := s[t.width..];
    assert s == s[..t.width] + rest;
  }

  /** Lexing loses nothing. */
  lemma {:induction false} LexIsFaithful(comments: bool, m: Mode, s: string)
    ensures Source(Lex(comments, m, s)) == s
    decreases |s|
  {
    if s != "" {
      var t, rest := LexFirst(comments, m, s);
      LexIsFaithful(comments, t.mode, rest);
      SourceFirst(t.item, Lex(comments, t.mode, rest));
    }
  }

  /** Two characters that mean something together, split over the end of `x` and the start of `y`. */
  predicate Straddles(x: string, y: string) {
    x != "" && y != "" && IsSymbol(x[|x| - 1], y[0])
  }

  predicate IsSymbol(a: char, b: char) {
    || (a == QUOTE && b == QUOTE)
    || (a == '-' && b == '-')
    || (a == '/' && b == '*')
    || (a == '*' && b == '/')
  }

  /** The lexer may be restarted at any point that splits no two-character symbol. */
  lemma {:induction false} LexAppend(comments: bool, m: Mode, x: string, y: string)
    requires !Straddles(x, y)
    ensures Lex(comments, m, x + y) == Lex(comments, m, x) + Lex(comments, EndMode(comments, m, x), y)
    ensures EndMode(comments, m, x + y) == EndMode(comments, EndMode(comments, m, x), y)
    decreases |x|
  {
    if x == "" {
      assert x + y == y;
    } else {
      var t, rest := LexFirst(comments, m, x);
      StepAppend(comments, m, x, y);
      LexAppend(comments, t.mode, rest, y);
      Associate([t.item], Lex(comments, t.mode, rest), Lex(comments, EndMode(comments, t.mode, rest), y));
    }
  }

  lemma {:induction false} StepAppend(comments: bool, m: Mode, x: string, y: string)
    requires x != "" && !Straddles(x, y)
    ensures var t := Read(comments, m, x);
            && !Straddles(x[t.width..], y)
            && Lex(comments, m, x + y) == [t.item] + Lex(comments, t.mode, x[t.width..] + y)
            && EndMode(comments, m, x + y) == EndMode(comments, t.mode, x[t.width..] + y)
  {
    var t := Read(comments, m, x);
    ReadAppend(comments, m, x, y);
    assert (x + y)[t.width..] == x[t.width..] + y;
    assert t.width < |x| ==> x[t.width..][|x| - t.width - 1] == x[|x| - 1];
  }

  lemma ReadAppend(comments: bool, m: Mode, x: string, y: string)
    requires x != "" && !Straddles(x, y)
    ensures Read(comments, m, x + y) == Read(comments, m, x)
  {
    if |x| == 1 && y != "" {
      assert (x + y)[..2] == [x[0], y[0]];
    } else if |x| > 1 {
      assert (x + y)[..2] == x[..2];
    }
  }
}

/** Character classes, case mapping and trimming, restricted to ASCII as Python's `str` and `re`
    treat it. */
module Text {

  const QUOTE: char := '\''

  /** What `str.strip` removes and the regular expression `\s` matches. */
  predicate IsSpace(c: char) {
    c == ' ' || '\t' <= c <= '\r' || '\U{1c}' <= c <= '\U{1f}'
  }

  predicate IsDigit(c: char) {
    '0' <= c <= '9'
  }

  predicate IsLetter(c: char) {
    'A' <= c <= 'Z' || 'a' <= c <= 'z'
  }

  /** A character of the class `[A-Za-z_]`. */
  predicate IsNameStart(c: char) {
    IsLetter(c) || c == '_'
  }

  /** A character of the class `[A-Za-z0-9_]`, the word characters of `\b`. */
  predicate IsWord(c: char) {
    IsNameStart(c) || IsDigit(c)
  }

  function UpperChar(c: char): char {
    if 'a' <= c <= 'z' then c - 'a' + 'A' else c
  }

  function LowerChar(c: char): char {
    if 'A' <= c <= 'Z' then c - 'A' + 'a' else c
  }

  function Upper(s: string): string {
    seq(|s|, i requires 0 <= i < |s| => UpperChar(s[i]))
  }

  function Lower(s: string): string {
    seq(|s|, i requires 0 <= i < |s| => LowerChar(s[i]))
  }

  predicate AllSpace(s: string) {
    forall i :: 0 <= i < |s| ==> IsSpace(s[i])
  }

  /** Neither end is whitespace. */
  predicate Tight(s: string) {
    s == "" || (!IsSpace(s[0]) && !IsSpace(s[|s| - 1]))
  }

  /** How many whitespace characters `s` starts with. */
  function Indent(s: string): (k: nat)
    ensures k <= |s| && AllSpace(s[..k])
    ensures k < |s| ==> !IsSpace(s[k])
  {
    if s != "" && IsSpace(s[0]) then 1 + Indent(s[1..]) else 0
  }

  /** Where the whitespace that `s` ends with starts. */
  function TextEnd(s: string): (k: nat)
    ensures k <= |s| && AllSpace(s[k..])
    ensures k > 0 ==> !IsSpace(s[k - 1])
  {
    if s != "" && IsSpace(s[|s| - 1]) then TextEnd(s[..|s| - 1]) else |s|
  }

  function LStrip(s: string): (r: string)
    ensures r == "" || !IsSpace(r[0])
  {
    s[Indent(s)..]
  }

  function RStrip(s: string): (r: string)
    ensures r == "" || !IsSpace(r[|r| - 1])
  {
    s[..TextEnd(s)]
  }

  function Strip(s: string): (r: string)
    ensures Tight(r)
  {
    RStrip(LStrip(s))
  }

  /** The white margins that `Strip` removes. */
  lemma Margins(s: string) returns (lead: string, trail: string)
    ensures s == lead + Strip(s) + trail
    ensures AllSpace(lead) && AllSpace(trail)
  {
    var rest := LStrip(s);
    lead, trail := s[..Indent(s)], rest[TextEnd(rest)..];
    assert rest == RStrip(rest) + trail;
  }

  lemma {:induction false} LStripSkips(lead: string, s: string)
    requires AllSpace(lead)
    ensures LStrip(lead + s) == LStrip(s)
  {
    if lead == "" {
      assert lead + s == s;
    } else {
      assert (lead + s)[1..] == lead[1..] + s;
      LStripSkips(lead[1..], s);
    }
  }

  lemma {:induction false} RStripSkips(s: string, trail: string)
    requires AllSpace(trail)
    ensures RStrip(s + trail) == RStrip(s)
  {
    if trail == "" {
      assert s + trail == s;
    } else {
      assert (s + trail)[..|s + trail| - 1] == s + trail[..|trail| - 1];
      RStripSkips(s, trail[..|trail| - 1]);
    }
  }

  /** `Strip` finds the tight core, whatever white margins surround it. */
  lemma StripFindsCore(lead: string, core: string, trail: string)
    requires AllSpace(lead) && AllSpace(trail) && Tight(core)
    ensures Strip(lead + core + trail) == core
  {
    assert lead + core + trail == lead + (core + trail);
    LStripSkips(lead, core + trail);
    if core == "" {
      assert core + trail == trail + "";
      LStripSkips(trail, "");
    } else {
      RStripSkips(core, trail);
    }
  }

  lemma UpperAppend(a: string, b: string)
    ensures Upper(a + b) == Upper(a) + Upper(b)
  {
  }

  lemma UpperIsIdempotent(s: string)
    ensures Upper(Upper(s)) == Upper(s)
  {
  }
}

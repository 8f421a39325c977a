/** What the values of a request convert to. */
module Conversions {
  import opened Wrappers
  import opened Text
  import opened Parameters

  predicate IsYes(word: string) {
    word in {"true", "1", "yes", "on", "sim"}
  }

  predicate IsNo(word: string) {
    word in {"false", "0", "no", "off", "nao"}
  }

  /** The text is one of these words, in any letter case, with any whitespace around it. */
  ghost predicate Says(s: string, meaning: string -> bool) {
    exists lead: string, word: string, trail: string ::
      s == lead + word + trail && AllSpace(lead) && AllSpace(trail) && meaning(Lower(word))
  }

  lemma YesOrNo(word: string)
    ensures word in ["true", "1", "yes", "on", "sim"] <==> IsYes(word)
    ensures word in ["false", "0", "no", "off", "nao"] <==> IsNo(word)
    ensures !(IsYes(word) && IsNo(word))
  {
  }

  predicate Tidy(word: string) {
    word != "" && !IsSpace(word[0]) && !IsSpace(word[|word| - 1])
  }

  lemma LowerKeepsSpace(word: string)
    ensures Tidy(Lower(word)) <==> Tidy(word)
  {
    if word != "" {
      assert Lower(word)[0] == LowerChar(word[0]) && Lower(word)[|word| - 1] == LowerChar(word[|word| - 1]);
    }
  }

  lemma WordsAreTidy(word: string)
    requires IsYes(word) || IsNo(word)
    ensures Tidy(word)
  {
  }

  lemma SaysByStripping(s: string, meaning: string -> bool)
    requires forall word :: meaning(word) ==> IsYes(word) || IsNo(word)
    ensures Says(s, meaning) <==> meaning(Lower(Strip(s)))
  {
    if lead: string, word: string, trail: string :|
       s == lead + word + trail && AllSpace(lead) && AllSpace(trail) && meaning(Lower(word))
    {
      WordsAreTidy(Lower(word));
      LowerKeepsSpace(word);
      StripFindsCore(lead, word, trail);
    }
    if meaning(Lower(Strip(s))) {
      var lead, trail := Margins(s);
    }
  }

  /** Main result. A boolean parameter is true or false exactly for the spellings of the service, for
      itself, and for the numbers one and zero; everything else is refused. */
  lemma BooleansAreRead(runtime: Runtime, v: Value)
    ensures var r := Convert(runtime, v, "boolean");
            match v
            case Bool(b) => r == Some(v)
            case Int(i) => r == if i == 1 then Some(Bool(true)) else if i == 0 then Some(Bool(false)) else None
            case Str(s) => && (r == Some(Bool(true)) <==> Says(s, IsYes)) && (r == Some(Bool(false)) <==> Says(s, IsNo))
                           && (r.Some? ==> r.value.Bool?)
            case _ => r == None
  {
    Kinds();
    if v.Str? {
      YesOrNo(Lower(Strip(v.s)));
      SaysByStripping(v.s, IsYes);
      SaysByStripping(v.s, IsNo);
    }
  }

  lemma Kinds()
    ensures "boolean" != "string" && "boolean" != "integer" && "boolean" != "float"
    ensures "integer" != "string" && "float" != "string" && "date" != "string" && "datetime" != "string"
    ensures "date" != "integer" && "date" != "float" && "date" != "boolean"
    ensures "datetime" != "integer" && "datetime" != "float" && "datetime" != "boolean"
  {
    assert "boolean"[0] == 'b' && "string"[0] == 's' && "integer"[0] == 'i' && "float"[0] == 'f';
    assert "date"[0] == 'd' && "datetime"[0] == 'd';
  }

  /** A text parameter is the spelling of the value; numbers and times are what the runtime reads, but a
      boolean is no number; an unknown type converts nothing. */
  lemma OthersAreRead(runtime: Runtime, v: Value, kind: string)
    ensures Convert(runtime, v, "string") == Some(Str(runtime.text(v)))
    ensures kind in {"integer", "float"} ==> Convert(runtime, v, kind) == if v.Bool? then None else runtime.parse(kind, v)
    ensures kind in {"date", "datetime"} ==> Convert(runtime, v, kind) == runtime.parse(kind, v)
    ensures kind !in {"string", "integer", "float", "boolean", "date", "datetime"} ==> Convert(runtime, v, kind) == None
  {
    Kinds();
  }
}

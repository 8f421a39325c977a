/** Route paths: which are accepted, and the form under which they are stored. */
module Routes {
  import opened Wrappers
  import opened Text
  import opened Parameters

  /** The placeholder that `s` starts with has a name of this length; zero if there is none. */
  function SlotLength(s: string): (k: nat)
    ensures k > 0 ==> k + 2 <= |s| && s[0] == '{' && s[k + 1] == '}' && IsName(s[1..k + 1])
  {
    if s == "" || s[0] != '{' then 0
    else
      var w := WordRun(s[1..]);
      if IsName(w) && 1 + |w| < |s| && s[1 + |w|] == '}' then |w| else 0
  }

  /** Texts and placeholders in turn, as `re.split` with a capturing group cuts them. */
  function Parts(current: string, s: string): seq<string>
    decreases |s|
  {
    var k := SlotLength(s);
    if s == "" then [current]
    else if k > 0 then [current, s[..k + 2]] + Parts("", s[k + 2..])
    else Parts(current + [s[0]], s[1..])
  }

  function Shape(parts: seq<string>, upperSlots: bool): string {
    if parts == [] then ""
    else
      (if "{" <= parts[0] then (if upperSlots then Upper(parts[0]) else parts[0]) else Lower(parts[0]))
      + Shape(parts[1..], upperSlots)
  }

  /** The stored form: placeholders in upper case, everything else in lower case. */
  function Normalize(route: string): string {
    Shape(Parts("", Strip(route)), true)
  }

  predicate IsRouteChar(c: char) {
    IsWord(c) || c == '/' || c == '{' || c == '}' || c == '-'
  }

  function Count(s: string, c: char): nat {
    if s == "" then 0 else (if s[0] == c then 1 else 0) + Count(s[1..], c)
  }

  datatype RouteError = BadEnds | Reserved | BadCharacters | BadSlot | DuplicateSlot

  function UpperAll(names: seq<string>): (r: seq<string>)
    ensures |r| == |names|
    ensures forall k :: 0 <= k < |r| ==> r[k] == Upper(names[k])
  {
    seq(|names|, k requires 0 <= k < |names| => Upper(names[k]))
  }

  /** The check of a route path before it is saved. */
  function Accept(route: string): Result<string, RouteError> {
    var value := Shape(Parts("", Strip(route)), false);
    var names := RouteNames(value);
    if !("/" <= value) || value[|value| - 1] == '/' then Err(BadEnds)
    else if value == "/base" || "/base/" <= value then Err(Reserved)
    else if |value| < 2 || exists c | c in value :: !IsRouteChar(c) then Err(BadCharacters)
    else if |names| != Count(value, '{') || |names| != Count(value, '}') then Err(BadSlot)
    else if !Distinct(UpperAll(names)) then Err(DuplicateSlot)
    else Ok(value)
  }
}

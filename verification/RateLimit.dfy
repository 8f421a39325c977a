/** The guard against repeated failures: a pruned window of failures per caller, and a lockout. */
module RateLimit {
  import opened Wrappers

  datatype Key = Key(scope: string, remote: string)

  datatype Settings = Settings(attempts: nat, window: nat, lockout: nat) {
    predicate Valid() {
      0 < attempts && 0 < window && 0 < lockout
    }
  }

  function Ceiling(x: real): int {
    -((-x).Floor)
  }

  /** The whole seconds to wait. */
  function Wait(until: real, now: real): int {
    var seconds := Ceiling(until - now);
    if seconds < 1 then 1 else seconds
  }

  function Failures(m: map<Key, seq<real>>, key: Key): seq<real> {
    if key in m then m[key] else []
  }

  function BlockedUntil(m: map<Key, real>, key: Key): real {
    if key in m then m[key] else 0.0
  }

  /** The failures left once the front ones up to the cutoff are dropped. */
  function Prune(s: seq<real>, cutoff: real): seq<real>
    decreases |s|
  {
    if s != [] && s[0] <= cutoff then Prune(s[1..], cutoff) else s
  }

  datatype State = State(failures: map<Key, seq<real>>, blocked: map<Key, real>)

  function Forget<V>(m: map<Key, V>, key: Key): map<Key, V> {
    m - {key}
  }

  function RetryAfter(s: State, key: Key, now: real): (State, int) {
    if BlockedUntil(s.blocked, key) <= now then (s.(blocked := Forget(s.blocked, key)), 0)
    else (s, Wait(BlockedUntil(s.blocked, key), now))
  }

  function RegisterFailure(c: Settings, s: State, key: Key, now: real): (State, int) {
    var failures := Prune(Failures(s.failures, key), now - c.window as real) + [now];
    if |failures| < c.attempts then (s.(failures := s.failures[key := failures]), 0)
    else (State(s.failures[key := []], s.blocked[key := now + c.lockout as real]), c.lockout)
  }

  function RegisterSuccess(s: State, key: Key): State {
    State(Forget(s.failures, key), Forget(s.blocked, key))
  }

  class AuthRateLimiter {
    const settings: Settings
    var failures: map<Key, seq<real>>
    var blocked: map<Key, real>

    constructor (settings: Settings)
      ensures this.settings == settings && View() == State(map[], map[])
    {
      this.settings := settings;
      failures := map[];
      blocked := map[];
    }

    function View(): State
      reads this
    {
      State(failures, blocked)
    }

    method Retry(key: Key, now: real) returns (seconds: int)
      modifies this
      ensures (View(), seconds) == RetryAfter(old(View()), key, now)
    {
      var until := if key in blocked then blocked[key] else 0.0;
      if until <= now {
        blocked := blocked - {key};
        return 0;
      }
      seconds := Ceiling(until - now);
      if seconds < 1 {
        seconds := 1;
      }
    }

    method Fail(key: Key, now: real) returns (seconds: int)
      modifies this
      ensures (View(), seconds) == RegisterFailure(settings, old(View()), key, now)
    {
      var cutoff := now - settings.window as real;
      var recent := if key in failures then failures[key] else [];
      while recent != [] && recent[0] <= cutoff
        invariant Prune(recent, cutoff) == Prune(Failures(failures, key), cutoff)
        invariant View() == old(View())
        decreases |recent|
      {
        recent := recent[1..];
      }
      recent := recent + [now];
      if |recent| < settings.attempts {
        failures := failures[key := recent];
        return 0;
      }
      failures := failures[key := []];
      blocked := blocked[key := now + settings.lockout as real];
      return settings.lockout;
    }

    method Succeed(key: Key)
      modifies this
      ensures View() == RegisterSuccess(old(View()), key)
    {
      failures := failures - {key};
      blocked := blocked - {key};
    }
  }

  // ----- the log

  /** Every failure since the last reset, and the end of the last lockout; nothing is ever pruned. */
  datatype Log = Log(failures: map<Key, seq<real>>, blocked: map<Key, real>)

  /** The failures after the cutoff. */
  function Recent(s: seq<real>, cutoff: real): seq<real>
    decreases |s|
  {
    if s == [] then [] else (if s[0] > cutoff then [s[0]] else []) + Recent(s[1..], cutoff)
  }

  datatype Call = Ask(key: Key, now: real) | Failed(key: Key, now: real) | Passed(key: Key, now: real)

  function Step(c: Settings, s: State, call: Call): (State, int) {
    match call
    case Ask(key, now) => RetryAfter(s, key, now)
    case Failed(key, now) => RegisterFailure(c, s, key, now)
    case Passed(key, _) => (RegisterSuccess(s, key), 0)
  }

  function LogStep(c: Settings, l: Log, call: Call): (Log, int) {
    match call
    case Ask(key, now) => (l, if key in l.blocked && l.blocked[key] > now then Wait(l.blocked[key], now) else 0)
    case Failed(key, now) =>
      var failures := (if key in l.failures then l.failures[key] else []) + [now];
      if |Recent(failures, now - c.window as real)| < c.attempts then (l.(failures := l.failures[key := failures]), 0)
      else (Log(l.failures[key := []], l.blocked[key := now + c.lockout as real]), c.lockout)
    case Passed(key, _) =>
      (Log(map k | k in l.failures && k != key :: l.failures[k], map k | k in l.blocked && k != key :: l.blocked[k]), 0)
  }

  function Outputs(c: Settings, s: State, calls: seq<Call>): seq<int>
    decreases |calls|
  {
    if calls == [] then [] else
      var (next, r) := Step(c, s, calls[0]);
      [r] + Outputs(c, next, calls[1..])
  }

  function LogOutputs(c: Settings, l: Log, calls: seq<Call>): seq<int>
    decreases |calls|
  {
    if calls == [] then [] else
      var (next, r) := LogStep(c, l, calls[0]);
      [r] + LogOutputs(c, next, calls[1..])
  }

  function After(c: Settings, s: State, calls: seq<Call>): State
    decreases |calls|
  {
    if calls == [] then s else After(c, Step(c, s, calls[0]).0, calls[1..])
  }

  /** The clock starts at zero or later and does not go back. */
  predicate Monotone(clock: real, calls: seq<Call>)
    decreases |calls|
  {
    calls == [] || (clock <= calls[0].now && Monotone(calls[0].now, calls[1..]))
  }
}

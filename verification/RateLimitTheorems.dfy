/** The pruned window decides like the full log, and the waiting time it announces is exact. */
module RateLimitTheorems {
  import opened Wrappers
  import opened RateLimit

  predicate Sorted(s: seq<real>) {
    forall i, j :: 0 <= i < j < |s| ==> s[i] <= s[j]
  }

  predicate UpTo(s: seq<real>, bound: real) {
    forall i :: 0 <= i < |s| ==> s[i] <= bound
  }

  /** The window is the end of the log; what was dropped is out of every later window. */
  ghost predicate IsWindow(window: seq<real>, log: seq<real>, cutoff: real) {
    exists dropped :: log == dropped + window && UpTo(dropped, cutoff)
  }

  ghost predicate WindowRight(c: Settings, window: seq<real>, log: seq<real>, clock: real) {
    && Sorted(log) && UpTo(log, clock) && |window| < c.attempts
    && IsWindow(window, log, clock - c.window as real)
  }

  predicate BlockRight(c: Settings, s: State, l: Log, clock: real, key: Key) {
    if key in s.blocked then
      key in l.blocked && s.blocked[key] == l.blocked[key] && s.blocked[key] <= clock + c.lockout as real
    else key in l.blocked ==> l.blocked[key] <= clock
  }

  ghost predicate Related(c: Settings, s: State, l: Log, clock: real, key: Key) {
    WindowRight(c, Failures(s.failures, key), Failures(l.failures, key), clock) && BlockRight(c, s, l, clock, key)
  }

  ghost predicate Refines(c: Settings, s: State, l: Log, clock: real) {
    forall key :: Related(c, s, l, clock, key)
  }

  lemma {:induction false} RecentAppend(a: seq<real>, b: seq<real>, cutoff: real)
    ensures Recent(a + b, cutoff) == Recent(a, cutoff) + Recent(b, cutoff)
    decreases |a|
  {
    if a == [] {
      assert a + b == b;
    } else {
      assert (a + b)[0] == a[0] && (a + b)[1..] == a[1..] + b;
      RecentAppend(a[1..], b, cutoff);
    }
  }

  lemma {:induction false} NoneRecent(s: seq<real>, cutoff: real)
    requires UpTo(s, cutoff)
    ensures Recent(s, cutoff) == []
    decreases |s|
  {
    if s != [] {
      NoneRecent(s[1..], cutoff);
    }
  }

  lemma {:induction false} AllRecent(s: seq<real>, cutoff: real)
    requires forall i :: 0 <= i < |s| ==> s[i] > cutoff
    ensures Recent(s, cutoff) == s
    decreases |s|
  {
    if s != [] {
      AllRecent(s[1..], cutoff);
    }
  }

  lemma SortedTail(a: seq<real>, b: seq<real>)
    requires Sorted(a + b)
    ensures Sorted(b)
  {
    assert forall i | 0 <= i < |b| :: b[i] == (a + b)[|a| + i];
  }

  /** Dropping from the front of a sorted window leaves the recent failures. */
  lemma {:induction false} PruneIsRecent(s: seq<real>, cutoff: real) returns (dropped: seq<real>)
    requires Sorted(s)
    ensures Prune(s, cutoff) == Recent(s, cutoff)
    ensures s == dropped + Prune(s, cutoff) && UpTo(dropped, cutoff)
    decreases |s|
  {
    if s != [] && s[0] <= cutoff {
      var rest := PruneIsRecent(s[1..], cutoff);
      dropped := [s[0]] + rest;
    } else {
      AllRecent(s, cutoff);
      dropped := [];
    }
  }

  /** Pruning the window gives the recent failures of the whole log. */
  lemma {:induction false} WindowIsRecent(window: seq<real>, log: seq<real>, cutoff: real, later: real)
    requires Sorted(log) && IsWindow(window, log, cutoff) && cutoff <= later
    ensures Prune(window, later) == Recent(log, later)
    ensures IsWindow(Prune(window, later), log, later)
  {
    var dropped :| log == dropped + window && UpTo(dropped, cutoff);
    RecentAppend(dropped, window, later);
    NoneRecent(dropped, later);
    SortedTail(dropped, window);
    var more := PruneIsRecent(window, later);
    assert log == (dropped + more) + Prune(window, later);
  }

  /** One failure: the window grows like the log, and is as long as the log's recent failures. */
  lemma {:induction false} FailureGrows(window: seq<real>, log: seq<real>, cutoff: real, later: real, now: real)
    requires Sorted(log) && IsWindow(window, log, cutoff) && cutoff <= later < now && UpTo(log, now)
    ensures var grown := Prune(window, later) + [now];
            && grown == Recent(log + [now], later)
            && Sorted(log + [now]) && UpTo(log + [now], now) && IsWindow(grown, log + [now], later)
  {
    WindowIsRecent(window, log, cutoff, later);
    RecentAppend(log, [now], later);
    OneRecent(now, later);
    SortedLonger(log, now);
    WindowLonger(Prune(window, later), log, later, now);
  }

  lemma {:induction false} OneRecent(now: real, cutoff: real)
    requires cutoff < now
    ensures Recent([now], cutoff) == [now]
  {
    assert [now][1..] == [];
  }

  lemma SortedLonger(log: seq<real>, now: real)
    requires Sorted(log) && UpTo(log, now)
    ensures Sorted(log + [now]) && UpTo(log + [now], now)
  {
  }

  lemma WindowLonger(window: seq<real>, log: seq<real>, cutoff: real, now: real)
    requires IsWindow(window, log, cutoff)
    ensures IsWindow(window + [now], log + [now], cutoff)
  {
    var dropped :| log == dropped + window && UpTo(dropped, cutoff);
    assert log + [now] == dropped + (window + [now]);
  }

  lemma WindowLater(c: Settings, window: seq<real>, log: seq<real>, clock: real, now: real)
    requires WindowRight(c, window, log, clock) && clock <= now
    ensures WindowRight(c, window, log, now)
  {
    var dropped :| log == dropped + window && UpTo(dropped, clock - c.window as real);
    assert UpTo(dropped, now - c.window as real);
  }

  /** Waiting keeps the relation. */
  lemma TimePasses(c: Settings, s: State, l: Log, clock: real, now: real)
    requires Refines(c, s, l, clock) && clock <= now
    ensures Refines(c, s, l, now)
  {
    forall key ensures Related(c, s, l, now, key) {
      assert Related(c, s, l, clock, key);
      WindowLater(c, Failures(s.failures, key), Failures(l.failures, key), clock, now);
    }
  }

  lemma AskRefines(c: Settings, s: State, l: Log, key: Key, now: real)
    requires Refines(c, s, l, now) && 0.0 <= now
    ensures RetryAfter(s, key, now).1 == LogStep(c, l, Ask(key, now)).1
    ensures Refines(c, RetryAfter(s, key, now).0, l, now)
  {
    assert Related(c, s, l, now, key);
    var after := RetryAfter(s, key, now).0;
    forall k ensures Related(c, after, l, now, k) {
      assert Related(c, s, l, now, k);
    }
  }

  lemma FailureOf(c: Settings, window: seq<real>, log: seq<real>, now: real)
    requires c.Valid() && WindowRight(c, window, log, now)
    ensures var grown := Prune(window, now - c.window as real) + [now];
            && grown == Recent(log + [now], now - c.window as real)
            && (|grown| < c.attempts ==> WindowRight(c, grown, log + [now], now))
  {
    var cutoff := now - c.window as real;
    FailureGrows(window, log, cutoff, cutoff, now);
  }

  lemma Reset(c: Settings, now: real)
    requires c.Valid()
    ensures WindowRight(c, [], [], now)
  {
    var none: seq<real> := [];
    assert none == none + none && UpTo(none, now - c.window as real);
  }

  lemma FailureOfKey(c: Settings, s: State, l: Log, key: Key, now: real)
    requires c.Valid() && Related(c, s, l, now, key)
    ensures RegisterFailure(c, s, key, now).1 == LogStep(c, l, Failed(key, now)).1
    ensures Related(c, RegisterFailure(c, s, key, now).0, LogStep(c, l, Failed(key, now)).0, now, key)
  {
    var window, log := Failures(s.failures, key), Failures(l.failures, key);
    var cutoff := now - c.window as real;
    var grown := Prune(window, cutoff) + [now];
    FailureOf(c, window, log, now);
    Reset(c, now);
    FailureResult(c, s, l, key, now, |grown| < c.attempts);
  }

  /** What a failure does to its own key, in the limiter and in the log. */
  lemma FailureResult(c: Settings, s: State, l: Log, key: Key, now: real, counts: bool)
    requires var cutoff := now - c.window as real;
             && counts == (|Prune(Failures(s.failures, key), cutoff) + [now]| < c.attempts)
             && counts == (|Recent(Failures(l.failures, key) + [now], cutoff)| < c.attempts)
    requires BlockRight(c, s, l, now, key)
    ensures var cutoff := now - c.window as real;
            var (after, r) := RegisterFailure(c, s, key, now);
            var (log, q) := LogStep(c, l, Failed(key, now));
            && r == q && BlockRight(c, after, log, now, key)
            && Failures(after.failures, key) == (if counts then Prune(Failures(s.failures, key), cutoff) + [now] else [])
            && Failures(log.failures, key) == (if counts then Failures(l.failures, key) + [now] else [])
  {
  }

  lemma FailureOfAnother(c: Settings, s: State, l: Log, key: Key, now: real, other: Key)
    requires Related(c, s, l, now, other) && other != key
    ensures Related(c, RegisterFailure(c, s, key, now).0, LogStep(c, l, Failed(key, now)).0, now, other)
  {
    FailureSparesOthers(c, s, l, key, now, other);
  }

  lemma FailureSparesOthers(c: Settings, s: State, l: Log, key: Key, now: real, other: Key)
    requires other != key
    ensures var after, log := RegisterFailure(c, s, key, now).0, LogStep(c, l, Failed(key, now)).0;
            && Failures(after.failures, other) == Failures(s.failures, other)
            && Failures(log.failures, other) == Failures(l.failures, other)
            && (other in after.blocked <==> other in s.blocked) && (other in log.blocked <==> other in l.blocked)
            && (other in s.blocked ==> after.blocked[other] == s.blocked[other])
            && (other in l.blocked ==> log.blocked[other] == l.blocked[other])
  {
  }

  lemma FailureRefines(c: Settings, s: State, l: Log, key: Key, now: real)
    requires c.Valid() && Refines(c, s, l, now)
    ensures RegisterFailure(c, s, key, now).1 == LogStep(c, l, Failed(key, now)).1
    ensures Refines(c, RegisterFailure(c, s, key, now).0, LogStep(c, l, Failed(key, now)).0, now)
  {
    forall k ensures Related(c, RegisterFailure(c, s, key, now).0, LogStep(c, l, Failed(key, now)).0, now, k) {
      assert Related(c, s, l, now, k);
      if k != key {
        FailureOfAnother(c, s, l, key, now, k);
      } else {
        FailureOfKey(c, s, l, key, now);
      }
    }
    assert Related(c, s, l, now, key);
    FailureOfKey(c, s, l, key, now);
  }

  lemma SuccessRefines(c: Settings, s: State, l: Log, key: Key, now: real)
    requires c.Valid() && Refines(c, s, l, now)
    ensures Refines(c, RegisterSuccess(s, key), LogStep(c, l, Passed(key, now)).0, now)
  {
    var after, log := RegisterSuccess(s, key), LogStep(c, l, Passed(key, now)).0;
    Reset(c, now);
    forall k ensures Related(c, after, log, now, k) {
      assert Related(c, s, l, now, k);
    }
  }

  lemma StepRefines(c: Settings, s: State, l: Log, clock: real, call: Call)
    requires c.Valid() && Refines(c, s, l, clock) && 0.0 <= clock <= call.now
    ensures Step(c, s, call).1 == LogStep(c, l, call).1
    ensures Refines(c, Step(c, s, call).0, LogStep(c, l, call).0, call.now)
  {
    TimePasses(c, s, l, clock, call.now);
    match call
    case Ask(key, now) => AskRefines(c, s, l, key, now);
    case Failed(key, now) => FailureRefines(c, s, l, key, now);
    case Passed(key, now) => SuccessRefines(c, s, l, key, now);
  }

  lemma {:induction false} CallsRefine(c: Settings, s: State, l: Log, clock: real, calls: seq<Call>)
    requires c.Valid() && Refines(c, s, l, clock) && 0.0 <= clock && Monotone(clock, calls)
    ensures Outputs(c, s, calls) == LogOutputs(c, l, calls)
    decreases |calls|
  {
    if calls != [] {
      StepRefines(c, s, l, clock, calls[0]);
      CallsRefine(c, Step(c, s, calls[0]).0, LogStep(c, l, calls[0]).0, calls[0].now, calls[1..]);
    }
  }

  lemma StartRefines(c: Settings)
    requires c.Valid()
    ensures Refines(c, State(map[], map[]), Log(map[], map[]), 0.0)
  {
    Reset(c, 0.0);
  }

  /** Main result. For every sequence of calls in order of time, the limiter answers what the full log
      answers: a lockout starts when the failures of the last window since the last reset reach the
      limit, and dropping old failures or expired lockouts never shows. */
  lemma {:induction false} LimiterRefinesLog(c: Settings, calls: seq<Call>)
    requires c.Valid() && Monotone(0.0, calls)
    ensures Outputs(c, State(map[], map[]), calls) == LogOutputs(c, Log(map[], map[]), calls)
  {
    StartRefines(c);
    CallsRefine(c, State(map[], map[]), Log(map[], map[]), 0.0, calls);
  }

  // ----- what the limiter keeps

  ghost predicate Tidy(c: Settings, s: State, clock: real) {
    && (forall key :: Sorted(Failures(s.failures, key)) && UpTo(Failures(s.failures, key), clock)
                      && |Failures(s.failures, key)| < c.attempts)
    && (forall key | key in s.blocked :: s.blocked[key] <= clock + c.lockout as real)
  }

  lemma RefiningIsTidy(c: Settings, s: State, l: Log, clock: real)
    requires Refines(c, s, l, clock)
    ensures Tidy(c, s, clock)
  {
    forall key ensures Sorted(Failures(s.failures, key)) && UpTo(Failures(s.failures, key), clock)
                       && |Failures(s.failures, key)| < c.attempts
                       && (key in s.blocked ==> s.blocked[key] <= clock + c.lockout as real)
    {
      assert Related(c, s, l, clock, key);
      var window, log := Failures(s.failures, key), Failures(l.failures, key);
      var dropped :| log == dropped + window && UpTo(dropped, clock - c.window as real);
      SortedTail(dropped, window);
      assert forall i | 0 <= i < |window| :: window[i] == log[|dropped| + i];
    }
  }

  function Clock(clock: real, calls: seq<Call>): real
    decreases |calls|
  {
    if calls == [] then clock else Clock(calls[0].now, calls[1..])
  }

  lemma {:induction false} TidyAfter(c: Settings, s: State, l: Log, clock: real, calls: seq<Call>)
    requires c.Valid() && Refines(c, s, l, clock) && 0.0 <= clock && Monotone(clock, calls)
    ensures Tidy(c, After(c, s, calls), Clock(clock, calls)) && clock <= Clock(clock, calls)
    decreases |calls|
  {
    if calls == [] {
      RefiningIsTidy(c, s, l, clock);
    } else {
      StepRefines(c, s, l, clock, calls[0]);
      TidyAfter(c, Step(c, s, calls[0]).0, LogStep(c, l, calls[0]).0, calls[0].now, calls[1..]);
    }
  }

  function Later(now: real, seconds: int): real {
    now + seconds as real
  }

  lemma WaitIsExact(until: real, now: real, lockout: nat)
    requires now < until <= now + lockout as real
    ensures 1 <= Wait(until, now) <= lockout
    ensures until <= Later(now, Wait(until, now))
    ensures forall w :: w < Wait(until, now) ==> Later(now, w) < until
  {
    var x := now - until;
    assert x.Floor as real <= x < x.Floor as real + 1.0;
    assert until - now == -x;
    forall w | w < Wait(until, now) ensures Later(now, w) < until {
      assert w <= -x.Floor - 1;
    }
  }

  /** Main result. Between calls every window is sorted and shorter than the limit. A waiting time
      announced after any calls is from one second to the whole lockout; asking again after it gives
      zero, and after fewer whole seconds does not. */
  lemma {:induction false} RetryAfterIsExact(c: Settings, calls: seq<Call>, key: Key, now: real)
    requires c.Valid() && Monotone(0.0, calls) && Clock(0.0, calls) <= now
    ensures var s := After(c, State(map[], map[]), calls);
            var (after, seconds) := RetryAfter(s, key, now);
            && Tidy(c, s, now)
            && (seconds > 0 ==>
                  && 1 <= seconds <= c.lockout
                  && RetryAfter(after, key, Later(now, seconds)).1 == 0
                  && forall w: nat :: w < seconds ==> RetryAfter(after, key, Later(now, w)).1 > 0)
            && (seconds == 0 ==> forall later :: now <= later ==> RetryAfter(after, key, later).1 == 0)
  {
    StartRefines(c);
    TidyAfter(c, State(map[], map[]), Log(map[], map[]), 0.0, calls);
    var s := After(c, State(map[], map[]), calls);
    var (after, seconds) := RetryAfter(s, key, now);
    var until := BlockedUntil(s.blocked, key);
    if until > now {
      WaitIsExact(until, now, c.lockout);
    }
  }
}

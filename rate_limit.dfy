/** The per-session admission control of the "Enhance Prompt" button (app.py).

    Time is an integer count of microseconds since `datetime.min`, so the
    session's initial `last_request_time = datetime.min` is the timestamp 0.
    `timedelta` is exact in microseconds, and comparing `total_seconds()`
    with 2 or 60 gives the same answer as comparing the microsecond count
    with 2_000_000 or 60_000_000. */
module RateLimit {

  /** Minimum gap between two requests: 2 seconds. */
  const MinGap: int := 2_000_000
  /** Length of the quota window: 60 seconds. */
  const Window: int := 60_000_000
  /** Requests admitted before the quota check refuses: 60. */
  const Quota: int := 60
  /** One second in microseconds. */
  const Second: int := 1_000_000

  /** The two session fields `last_request_time` and `request_count`. */
  datatype LimiterState = LimiterState(lastRequestAt: int, requestCount: int)

  /** The state a new session starts in: `datetime.min` and a count of 0. */
  const Initial: LimiterState := LimiterState(0, 0)

  /** What one press of the button leads to.  `QuotaReached` carries the
      whole number of seconds the warning tells the user to wait;
      `Called` says whether the provider call returned normally. */
  datatype Decision = TooSoon | QuotaReached(waitSeconds: int) | Called(succeeded: bool)

  /** One press of the button: when it happened and whether the provider
      call (if one is made) returns normally. */
  datatype Event = Event(at: int, providerSucceeds: bool)

  /** Python's `int()` of a number of seconds given in microseconds:
      truncation toward zero, also for negative amounts. */
  function WholeSeconds(us: int): (r: int)
    ensures us >= 0 ==> 0 <= r && r * Second <= us < (r + 1) * Second
    ensures us < 0 ==> r <= 0 && (r - 1) * Second < us <= r * Second
  {
    if us >= 0 then us / Second else -((-us) / Second)
  }

  /** The branch the handler takes for an attempt at `now` (app.py:133-141):
      too soon, quota reached, or the provider is called. */
  function Decide(s: LimiterState, now: int, providerSucceeds: bool): (d: Decision)
    ensures d == TooSoon <==> now - s.lastRequestAt < MinGap
    ensures d.QuotaReached? <==> now - s.lastRequestAt >= MinGap && s.requestCount >= Quota
    ensures d.QuotaReached? ==> d.waitSeconds == WholeSeconds(Window - (now - s.lastRequestAt))
    ensures d.Called? <==> now - s.lastRequestAt >= MinGap && s.requestCount < Quota
    ensures d.Called? ==> d.succeeded == providerSucceeds
  {
    var elapsed := now - s.lastRequestAt;
    if elapsed < MinGap then TooSoon
    else if s.requestCount >= Quota then QuotaReached(WholeSeconds(Window - elapsed))
    else Called(providerSucceeds)
  }

  /** The commit after a provider call that returned (app.py:167-172): the
      timestamp moves to `now`, the counter is incremented and then
      overwritten with 0 when the gap was a minute or more. */
  function Commit(s: LimiterState, now: int): (r: LimiterState)
    ensures r.lastRequestAt == now
    ensures now - s.lastRequestAt < Window ==> r.requestCount == s.requestCount + 1
    ensures now - s.lastRequestAt >= Window ==> r.requestCount == 0
  {
    var counted := LimiterState(now, s.requestCount + 1);
    if now - s.lastRequestAt >= Window then counted.(requestCount := 0) else counted
  }

  /** The state after one attempt: only an admitted attempt whose provider
      call returned is committed; denials and raised calls change nothing. */
  function Next(s: LimiterState, now: int, providerSucceeds: bool): (r: LimiterState)
    ensures Decide(s, now, providerSucceeds) != Called(true) ==> r == s
    ensures Decide(s, now, providerSucceeds) == Called(true) ==> r == Commit(s, now)
    ensures r != s ==> providerSucceeds && s.requestCount < Quota && now - s.lastRequestAt >= MinGap
  {
    if Decide(s, now, providerSucceeds) == Called(true) then Commit(s, now) else s
  }

  /** The invariant the counter keeps: it lies in 0..60. */
  predicate Bounded(s: LimiterState) {
    0 <= s.requestCount <= Quota
  }

  /** The state after a sequence of attempts, oldest first. */
  function Run(s: LimiterState, events: seq<Event>): LimiterState
    decreases |events|
  {
    if events == [] then s
    else Run(Next(s, events[0].at, events[0].providerSucceeds), events[1..])
  }

  /** The decision taken at each attempt of a sequence. */
  function Decisions(s: LimiterState, events: seq<Event>): (ds: seq<Decision>)
    ensures |ds| == |events|
    decreases |events|
  {
    if events == [] then []
    else [Decide(s, events[0].at, events[0].providerSucceeds)]
         + Decisions(Next(s, events[0].at, events[0].providerSucceeds), events[1..])
  }

  /** One attempt keeps the counter in 0..60: it is incremented only when
      it was below 60. */
  lemma NextKeepsBounded(s: LimiterState, now: int, providerSucceeds: bool)
    requires Bounded(s)
    ensures Bounded(Next(s, now, providerSucceeds))
  {
  }

  /** `0 <= request_count <= 60` holds across any sequence of attempts. */
  lemma {:induction false} RunKeepsBounded(s: LimiterState, events: seq<Event>)
    requires Bounded(s)
    ensures Bounded(Run(s, events))
    decreases |events|
  {
    if events != [] {
      NextKeepsBounded(s, events[0].at, events[0].providerSucceeds);
      RunKeepsBounded(Next(s, events[0].at, events[0].providerSucceeds), events[1..]);
    }
  }

  /** A new session admits its first attempt exactly when the clock reads
      at least 2 seconds past `datetime.min`; the first successful call then
      leaves the counter at 0, since the gap from `datetime.min` is over a
      minute for any clock later than year 1. */
  lemma InitialAdmits(now: int, providerSucceeds: bool)
    ensures Decide(Initial, now, providerSucceeds) == Called(providerSucceeds) <==> now >= MinGap
    ensures now >= Window ==> Next(Initial, now, true) == LimiterState(now, 0)
  {
  }

  /** After a successful call at `t`, any attempt less than 2 seconds later
      is rejected as too soon and leaves the state as it is. */
  lemma TooSoonAfterCall(s: LimiterState, t: int, later: int, providerSucceeds: bool)
    requires Decide(s, t, true) == Called(true)
    requires later - t < MinGap
    ensures Decide(Next(s, t, true), later, providerSucceeds) == TooSoon
    ensures Next(Next(s, t, true), later, providerSucceeds) == Next(s, t, true)
  {
  }

  /** Once the counter is at 60 or more, every later attempt is denied and
      the state never changes again: the quota state is absorbing. */
  lemma {:induction false} QuotaIsAbsorbing(s: LimiterState, events: seq<Event>)
    requires s.requestCount >= Quota
    ensures Run(s, events) == s
    ensures forall i :: 0 <= i < |events| ==> !Decisions(s, events)[i].Called?
    decreases |events|
  {
    if events != [] {
      QuotaIsAbsorbing(s, events[1..]);
    }
  }

  /** Successful presses exactly 2 seconds apart, starting 2 seconds after `start`. */
  function Paced(start: int, n: nat): (es: seq<Event>)
    ensures |es| == n
    ensures forall i :: 0 <= i < n ==> es[i] == Event(start + MinGap * (i + 1), true)
  {
    seq(n, i => Event(start + MinGap * (i + 1), true))
  }

  lemma PacedSplit(start: int, n: nat)
    requires n > 0
    ensures Paced(start, n) == [Event(start + MinGap, true)] + Paced(start + MinGap, n - 1)
  {
    var a := Paced(start, n);
    var b := [Event(start + MinGap, true)] + Paced(start + MinGap, n - 1);
    assert |a| == |b|;
    forall i | 0 <= i < n ensures a[i] == b[i] {
      if i > 0 {
        assert b[i] == Paced(start + MinGap, n - 1)[i - 1];
      }
    }
  }

  /** n successful presses 2 seconds apart are all admitted while the
      counter stays within the quota, and raise it by n. */
  lemma {:induction false} PacedCalls(s: LimiterState, n: nat)
    requires 0 <= s.requestCount && s.requestCount + n <= Quota
    ensures Run(s, Paced(s.lastRequestAt, n))
         == LimiterState(s.lastRequestAt + MinGap * n, s.requestCount + n)
    ensures forall i :: 0 <= i < n ==> Decisions(s, Paced(s.lastRequestAt, n))[i] == Called(true)
    decreases n
  {
    if n > 0 {
      PacedSplit(s.lastRequestAt, n);
      var s' := LimiterState(s.lastRequestAt + MinGap, s.requestCount + 1);
      assert Next(s, s.lastRequestAt + MinGap, true) == s';
      PacedCalls(s', n - 1);
      var es := Paced(s.lastRequestAt, n);
      assert es[1..] == Paced(s'.lastRequestAt, n - 1);
      forall i | 0 <= i < n ensures Decisions(s, es)[i] == Called(true) {
        if i > 0 {
          assert Decisions(s, es)[i] == Decisions(s', es[1..])[i - 1];
        }
      }
    }
  }

  /** From a counter of c, 60 - c presses within the window are admitted and
      the next press 2 seconds or more later is refused by the quota with
      the wait hint 60 - elapsed, truncated: the press after the quota is
      full is turned away. */
  lemma QuotaAfterFullWindow(s: LimiterState, later: int, providerSucceeds: bool)
    requires 0 <= s.requestCount <= Quota
    requires later - (s.lastRequestAt + MinGap * (Quota - s.requestCount)) >= MinGap
    ensures var full := Run(s, Paced(s.lastRequestAt, Quota - s.requestCount));
            full.requestCount == Quota &&
            Decide(full, later, providerSucceeds)
              == QuotaReached(WholeSeconds(Window - (later - full.lastRequestAt)))
  {
    PacedCalls(s, Quota - s.requestCount);
  }

  /** The trace the rate limiter can never leave: from a new session whose
      clock reads `start` (at least a minute past `datetime.min`), one
      successful press at `start` (which resets the count to 0) and 60 more
      at 2-second steps reach the count 60; any press after that, however
      late, is refused, with a wait hint that is negative once 61 seconds have passed. */
  lemma LockoutAsWritten(start: int, later: int, providerSucceeds: bool)
    requires start >= Window
    requires later >= start + MinGap * (Quota + 1)
    ensures var locked := Run(Initial, [Event(start, true)] + Paced(start, Quota));
            locked == LimiterState(start + MinGap * Quota, Quota) &&
            Decide(locked, later, providerSucceeds).QuotaReached? &&
            (later - locked.lastRequestAt >= Window + Second ==>
               Decide(locked, later, providerSucceeds).waitSeconds < 0) &&
            Run(locked, [Event(later, providerSucceeds)]) == locked
  {
    var first := LimiterState(start, 0);
    assert Next(Initial, start, true) == first;
    var es := [Event(start, true)] + Paced(start, Quota);
    assert es[1..] == Paced(start, Quota);
    PacedCalls(first, Quota);
    var locked := Run(first, Paced(start, Quota));
    QuotaIsAbsorbing(locked, [Event(later, providerSucceeds)]);
  }

  /** The evidently intended rule, as the comments "Limiting to 60 requests
      per minute" and "Reset counter after one minute" and the warning
      "Please wait N seconds" describe it: the quota applies only within a
      minute of the last request. */
  function DecideIntended(s: LimiterState, now: int, providerSucceeds: bool): (d: Decision)
    ensures d == TooSoon <==> now - s.lastRequestAt < MinGap
    ensures d.QuotaReached? <==> MinGap <= now - s.lastRequestAt < Window && s.requestCount >= Quota
    ensures d.QuotaReached? ==> 0 <= d.waitSeconds < Window / Second
  {
    var elapsed := now - s.lastRequestAt;
    if elapsed < MinGap then TooSoon
    else if s.requestCount >= Quota && elapsed < Window then QuotaReached(WholeSeconds(Window - elapsed))
    else Called(providerSucceeds)
  }

  /** The state after one attempt under the intended rule. */
  function NextIntended(s: LimiterState, now: int, providerSucceeds: bool): (r: LimiterState)
    ensures DecideIntended(s, now, providerSucceeds) != Called(true) ==> r == s
    ensures DecideIntended(s, now, providerSucceeds) == Called(true) ==> r == Commit(s, now)
  {
    if DecideIntended(s, now, providerSucceeds) == Called(true) then Commit(s, now) else s
  }

  /** Under the intended rule the counter stays in 0..60, the two rules agree
      whenever the counter is below the quota, and a press a minute or more
      after the last request is always admitted, whatever the counter. */
  lemma IntendedRecovers(s: LimiterState, now: int, providerSucceeds: bool)
    requires Bounded(s)
    ensures Bounded(NextIntended(s, now, providerSucceeds))
    ensures s.requestCount < Quota ==>
              DecideIntended(s, now, providerSucceeds) == Decide(s, now, providerSucceeds) &&
              NextIntended(s, now, providerSucceeds) == Next(s, now, providerSucceeds)
    ensures now - s.lastRequestAt >= Window ==>
              DecideIntended(s, now, providerSucceeds) == Called(providerSucceeds)
  {
  }
}

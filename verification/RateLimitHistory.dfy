/**
 * The streak counter explained by the history it summarises: a limiter that
 * remembers every window it ever opened, and the proof that the four fields
 * of a bucket are exactly a summary of that memory.
 */
module RateLimitHistory {
  import opened Common
  import opened RateLimit

  /** A window as an observer sees it: when it opened, what it admitted, and when (if ever) it was locked. */
  datatype Window = Window(start: int, allowed: int, lockedAt: Option<int>)

  function Last(h: seq<Window>): Window
    requires h != []
  {
    h[|h| - 1]
  }

  function Earlier(h: seq<Window>): seq<Window>
    requires h != []
  {
    h[..|h| - 1]
  }

  /** How many windows in a row, up to the end of `h`, ended in a lockout. */
  function Violations(h: seq<Window>): nat {
    if h == [] || Last(h).lockedAt.None? then 0 else 1 + Violations(Earlier(h))
  }

  /** When the lockout of the last window ends: its length depends on the violations up to it. */
  function LockedUntil(h: seq<Window>, windowMs: int): int
    requires h != [] && Last(h).lockedAt.Some?
  {
    Last(h).lockedAt.value + Backoff(windowMs, Violations(h))
  }

  /** One check, decided from the whole history. */
  function Record(h: seq<Window>, limit: int, windowMs: int, now: int): (seq<Window>, CheckResult) {
    if h != [] && Last(h).lockedAt.Some? && now < LockedUntil(h, windowMs) then
      (h, CheckResult(false, LockedUntil(h, windowMs) - now))
    else if h == [] || now >= Last(h).start + windowMs then
      (h + [Window(now, 1, None)], CheckResult(true, 0))
    else if Last(h).allowed < Admits(limit) then
      (Earlier(h) + [Last(h).(allowed := Last(h).allowed + 1)], CheckResult(true, 0))
    else
      var locked := Earlier(h) + [Last(h).(lockedAt := Some(now))];
      (locked, CheckResult(false, LockedUntil(locked, windowMs) - now))
  }

  function RecordAll(h: seq<Window>, limit: int, windowMs: int, times: seq<int>): seq<Window>
    decreases |times|
  {
    if times == [] then h
    else RecordAll(Record(h, limit, windowMs, times[0]).0, limit, windowMs, times[1..])
  }

  /** The streak a bucket should carry: violations up to now, not counting a window still open. */
  function Streak(h: seq<Window>): nat {
    if h == [] then 0
    else if Last(h).lockedAt.Some? then Violations(h)
    else Violations(Earlier(h))
  }

  /** The bucket that summarises a history. */
  function Summary(h: seq<Window>, windowMs: int): Option<Bucket> {
    if h == [] then None
    else if Last(h).lockedAt.Some? then
      Some(Bucket(Last(h).allowed + 1, Last(h).start, Some(LockedUntil(h, windowMs)), Streak(h)))
    else
      Some(Bucket(Last(h).allowed, Last(h).start, None, Streak(h)))
  }

  /** What each recorded window satisfies: a lockout is reached exactly when the window is used up. */
  ghost predicate WindowOk(w: Window, limit: int, clock: int) {
    && 1 <= w.allowed <= Admits(limit)
    && w.start <= clock
    && (w.lockedAt.Some? ==> w.allowed == Admits(limit) && w.start <= w.lockedAt.value <= clock)
  }

  /** Windows follow each other at a distance of at least `windowMs`, and never during a lockout. */
  ghost predicate Spaced(h: seq<Window>, windowMs: int) {
    forall i :: 0 < i < |h| ==>
      && h[i - 1].start + windowMs <= h[i].start
      && (h[i - 1].lockedAt.Some? ==> LockedUntil(h[..i], windowMs) <= h[i].start)
  }

  ghost predicate HistoryOk(h: seq<Window>, limit: int, windowMs: int, clock: int) {
    && (forall w :: w in h ==> WindowOk(w, limit, clock))
    && Spaced(h, windowMs)
  }

  lemma ReplaceLast(h: seq<Window>, w: Window)
    requires h != []
    ensures Earlier(Earlier(h) + [w]) == Earlier(h) && Last(Earlier(h) + [w]) == w
    ensures forall x :: x in Earlier(h) + [w] ==> x in h || x == w
    ensures forall i :: 0 <= i < |h| ==> (Earlier(h) + [w])[..i] == h[..i]
  {
  }

  lemma RecordKeepsOk(h: seq<Window>, limit: int, windowMs: int, clock: int, now: int)
    requires windowMs >= 1 && clock <= now && HistoryOk(h, limit, windowMs, clock)
    ensures HistoryOk(Record(h, limit, windowMs, now).0, limit, windowMs, now)
  {
    var h' := Record(h, limit, windowMs, now).0;
    forall w | w in h' ensures WindowOk(w, limit, now) {
      if h != [] {
        assert Last(h) in h;
        if h' != h && |h'| == |h| { ReplaceLast(h, Last(h')); }
      }
    }
    forall i | 0 < i < |h'|
      ensures h'[i - 1].start + windowMs <= h'[i].start
      ensures h'[i - 1].lockedAt.Some? ==> LockedUntil(h'[..i], windowMs) <= h'[i].start
    {
      if |h'| == |h| + 1 {
        assert h'[..i] == h[..i] && h'[i - 1] == h[i - 1];
        if i == |h| { assert h[..i] == h; }
      } else {
        assert h'[..i] == h[..i] && h'[i - 1] == h[i - 1] && h'[i].start == h[i].start;
      }
    }
  }

  /** The bucket's decision and next value are those of the full history. */
  lemma CheckFollowsHistory(h: seq<Window>, limit: int, windowMs: int, clock: int, now: int)
    requires windowMs >= 1 && clock <= now && HistoryOk(h, limit, windowMs, clock)
    ensures var (bucket, result) := Check(Summary(h, windowMs), limit, windowMs, now);
            && Some(bucket) == Summary(Record(h, limit, windowMs, now).0, windowMs)
            && result == Record(h, limit, windowMs, now).1
  {
    var h' := Record(h, limit, windowMs, now).0;
    if h == [] {
      assert Earlier(h') == [];
    } else {
      assert WindowOk(Last(h), limit, clock) by { assert Last(h) in h; }
      if |h'| == |h| + 1 {
        assert Earlier(h') == h;
      } else if h' != h {
        assert Earlier(h') == Earlier(h);
      }
      if Last(h).lockedAt.Some? {
        BackoffBounds(windowMs, Violations(h));
      }
    }
  }

  lemma {:induction false} RunFollowsHistory(h: seq<Window>, limit: int, windowMs: int, clock: int, times: seq<int>)
    requires windowMs >= 1 && Clock(clock, times) && HistoryOk(h, limit, windowMs, clock)
    ensures Run(Summary(h, windowMs), limit, windowMs, times) == Summary(RecordAll(h, limit, windowMs, times), windowMs)
    ensures exists now :: HistoryOk(RecordAll(h, limit, windowMs, times), limit, windowMs, now)
    decreases |times|
  {
    if times != [] {
      CheckFollowsHistory(h, limit, windowMs, clock, times[0]);
      RecordKeepsOk(h, limit, windowMs, clock, times[0]);
      RunFollowsHistory(Record(h, limit, windowMs, times[0]).0, limit, windowMs, times[0], times[1..]);
    }
  }

  /**
   * After any run of checks, the stored streak is the number of consecutive
   * windows ending now that each ended in a lockout.
   */
  lemma StreakIsHistory(limit: int, windowMs: int, clock: int, times: seq<int>)
    requires windowMs >= 1 && Clock(clock, times) && times != []
    ensures var bucket := Run(None, limit, windowMs, times);
            var h := RecordAll([], limit, windowMs, times);
            && h != [] && bucket.Some?
            && bucket.value.violationStreak == Streak(h)
            && bucket.value.windowStartedAt == Last(h).start
            && (bucket.value.blockedUntil.Some? <==> Last(h).lockedAt.Some?)
  {
    RunFollowsHistory([], limit, windowMs, clock, times);
    RunIsSome(None, limit, windowMs, times);
  }

  lemma {:induction false} RunIsSome(bucket: Option<Bucket>, limit: int, windowMs: int, times: seq<int>)
    requires bucket.Some? || times != []
    ensures Run(bucket, limit, windowMs, times).Some?
    decreases |times|
  {
    if times != [] {
      RunIsSome(Some(Check(bucket, limit, windowMs, times[0]).0), limit, windowMs, times[1..]);
    }
  }

  // ---- what a run of violated windows amounts to ----

  function TotalAllowed(h: seq<Window>): int {
    if h == [] then 0 else TotalAllowed(Earlier(h)) + Last(h).allowed
  }

  /** Total length of the lockouts of the last `n` windows. */
  function TotalLockout(h: seq<Window>, n: nat, windowMs: int): int
    requires n <= Violations(h)
  {
    if n == 0 then 0
    else TotalLockout(Earlier(h), n - 1, windowMs) + (LockedUntil(h, windowMs) - Last(h).lockedAt.value)
  }

  /** `2^min(1,10) + ... + 2^min(n,10)`. */
  function BackoffSum(n: nat): nat {
    if n == 0 then 0 else BackoffSum(n - 1) + Pow2(Min(n, 10))
  }

  lemma {:induction false} BackoffSumClosedForm(n: nat)
    ensures BackoffSum(n) == if n <= 10 then Pow2(n + 1) - 2 else 2046 + 1024 * (n - 10)
  {
    if n == 0 {
    } else {
      BackoffSumClosedForm(n - 1);
      Pow2Range(10);
      if n == 11 {
        assert Pow2(11) == 2 * Pow2(10);
      }
    }
  }

  lemma RecordCounts(h: seq<Window>, limit: int, windowMs: int, now: int)
    ensures var (h', result) := Record(h, limit, windowMs, now);
            TotalAllowed(h') == TotalAllowed(h) + if result.allowed then 1 else 0
  {
    var h' := Record(h, limit, windowMs, now).0;
    if |h'| > |h| {
      assert Earlier(h') == h;
    } else if h' != h {
      assert Earlier(h') == Earlier(h);
    }
  }

  /** The allowed checks of a run are exactly those its windows admitted. */
  lemma {:induction false} AllowedMatchesHistory(
      h: seq<Window>, limit: int, windowMs: int, clock: int, times: seq<int>, lo: int, hi: int)
    requires windowMs >= 1 && Clock(clock, times) && HistoryOk(h, limit, windowMs, clock)
    requires lo <= clock && forall i :: 0 <= i < |times| ==> times[i] < hi
    ensures TotalAllowed(h) + AllowedIn(Summary(h, windowMs), limit, windowMs, times, lo, hi)
         == TotalAllowed(RecordAll(h, limit, windowMs, times))
    decreases |times|
  {
    if times != [] {
      CheckFollowsHistory(h, limit, windowMs, clock, times[0]);
      RecordKeepsOk(h, limit, windowMs, clock, times[0]);
      RecordCounts(h, limit, windowMs, times[0]);
      AllowedMatchesHistory(Record(h, limit, windowMs, times[0]).0, limit, windowMs, times[0], times[1..], lo, hi);
    }
  }

  lemma EarlierOk(h: seq<Window>, limit: int, windowMs: int, clock: int)
    requires h != [] && HistoryOk(h, limit, windowMs, clock)
    ensures HistoryOk(Earlier(h), limit, windowMs, clock) && WindowOk(Last(h), limit, clock)
  {
    var e := Earlier(h);
    assert Last(h) in h;
    forall i | 0 < i < |e|
      ensures e[i - 1].start + windowMs <= e[i].start
      ensures e[i - 1].lockedAt.Some? ==> LockedUntil(e[..i], windowMs) <= e[i].start
    {
      assert e[..i] == h[..i];
    }
  }

  lemma {:induction false} ViolatedWindowsAreFull(h: seq<Window>, limit: int, windowMs: int, clock: int)
    requires HistoryOk(h, limit, windowMs, clock)
    ensures Violations(h) <= |h|
    ensures TotalAllowed(h) == TotalAllowed(h[..|h| - Violations(h)]) + Admits(limit) * Violations(h)
  {
    var n := Violations(h);
    if n == 0 {
      assert h[..|h| - 0] == h;
    } else {
      EarlierOk(h, limit, windowMs, clock);
      ViolatedWindowsAreFull(Earlier(h), limit, windowMs, clock);
      assert Earlier(h)[..|h| - 1 - (n - 1)] == h[..|h| - n];
      MulDistributes(Admits(limit), n - 1, 1);
    }
  }

  lemma {:induction false} LockoutsAddUp(h: seq<Window>, windowMs: int)
    ensures TotalLockout(h, Violations(h), windowMs) == windowMs * BackoffSum(Violations(h))
  {
    var n := Violations(h);
    if n != 0 {
      LockoutsAddUp(Earlier(h), windowMs);
      MulDistributes(windowMs, BackoffSum(n - 1), Pow2(Min(n, 10)));
    }
  }

  /**
   * In any run of checks: if the last `n` windows all ended in a lockout (and
   * the one before them did not), those `n` windows allowed exactly
   * `limit * n` checks and their lockouts last `windowMs` times the sum of
   * `2^min(k,10)`, which is `windowMs * (2^(n+1) - 2)` for `n <= 10`; and the
   * windows account for every check the run allowed.
   */
  lemma ConsecutiveViolations(limit: int, windowMs: int, clock: int, times: seq<int>, hi: int)
    requires windowMs >= 1 && Clock(clock, times)
    requires forall i :: 0 <= i < |times| ==> times[i] < hi
    ensures var h := RecordAll([], limit, windowMs, times);
            var n := Violations(h);
            && n <= |h|
            && AllowedIn(None, limit, windowMs, times, clock, hi) == TotalAllowed(h)
            && TotalAllowed(h) == TotalAllowed(h[..|h| - n]) + Admits(limit) * n
            && TotalLockout(h, n, windowMs)
            == windowMs * (if n <= 10 then Pow2(n + 1) - 2 else 2046 + 1024 * (n - 10))
  {
    RunFollowsHistory([], limit, windowMs, clock, times);
    var h := RecordAll([], limit, windowMs, times);
    var now :| HistoryOk(h, limit, windowMs, now);
    AllowedMatchesHistory([], limit, windowMs, clock, times, clock, hi);
    ViolatedWindowsAreFull(h, limit, windowMs, now);
    LockoutsAddUp(h, windowMs);
    BackoffSumClosedForm(Violations(h));
  }
}

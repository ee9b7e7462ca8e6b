/** How much traffic a key can get through, and when a refused caller may come back. */
module RateLimitBounds {
  import opened Common
  import opened RateLimit

  // ---- throughput ----

  /** What windows opened one after another from time `from` could admit before `hi`. */
  function Budget(from: int, hi: int, limit: int, windowMs: int): (n: nat)
    requires windowMs >= 1
    decreases hi - from
  {
    if from >= hi then 0 else Admits(limit) + Budget(from + windowMs, hi, limit, windowMs)
  }

  /** What a key can still admit from time `now` until `hi`. */
  function Quota(bucket: Option<Bucket>, limit: int, windowMs: int, now: int, hi: int): nat
    requires windowMs >= 1
  {
    if bucket.None? || now - bucket.value.windowStartedAt >= windowMs then
      Budget(now, hi, limit, windowMs)
    else
      var left := Admits(limit) - bucket.value.count;
      (if left > 0 then left else 0) + Budget(bucket.value.windowStartedAt + windowMs, hi, limit, windowMs)
  }

  lemma {:induction false} BudgetShrinks(a: int, b: int, hi: int, limit: int, windowMs: int)
    requires windowMs >= 1 && a <= b
    ensures Budget(b, hi, limit, windowMs) <= Budget(a, hi, limit, windowMs)
    decreases hi - a
  {
    if b < hi {
      BudgetShrinks(a + windowMs, b + windowMs, hi, limit, windowMs);
    }
  }

  lemma {:induction false} NothingAfter(
      bucket: Option<Bucket>, limit: int, windowMs: int, times: seq<int>, lo: int, hi: int)
    requires Clock(hi, times)
    ensures AllowedIn(bucket, limit, windowMs, times, lo, hi) == 0
    decreases |times|
  {
    if times != [] {
      NothingAfter(Some(Check(bucket, limit, windowMs, times[0]).0), limit, windowMs, times[1..], lo, hi);
    }
  }

  lemma {:induction false} AllowedWithinQuota(
      bucket: Option<Bucket>, limit: int, windowMs: int, times: seq<int>, now: int, lo: int, hi: int)
    requires windowMs >= 1 && Clock(now, times)
    ensures AllowedIn(bucket, limit, windowMs, times, lo, hi) <= Quota(bucket, limit, windowMs, now, hi)
    decreases |times|
  {
    if times == [] {
    } else if times[0] >= hi {
      NothingAfter(bucket, limit, windowMs, times, lo, hi);
    } else {
      var t := times[0];
      var next := Some(Check(bucket, limit, windowMs, t).0);
      AllowedWithinQuota(next, limit, windowMs, times[1..], t, lo, hi);
      BudgetShrinks(now, t, hi, limit, windowMs);
      if bucket.Some? {
        if bucket.value.windowStartedAt + windowMs <= t {
          BudgetShrinks(bucket.value.windowStartedAt + windowMs, t, hi, limit, windowMs);
        }
      }
    }
  }

  /** How many steps of length `d` it takes to cover `n`: the quotient rounded up. */
  function CeilDiv(n: nat, d: int): nat
    requires d >= 1
  {
    if n == 0 then 0 else if n <= d then 1 else 1 + CeilDiv(n - d, d)
  }

  lemma {:induction false} CeilDivIsCeiling(n: nat, d: int)
    requires d >= 1
    ensures d * CeilDiv(n, d) - d < n <= d * CeilDiv(n, d) || n == CeilDiv(n, d) == 0
  {
    if n > d {
      CeilDivIsCeiling(n - d, d);
      MulDistributes(d, 1, CeilDiv(n - d, d));
    }
  }

  lemma {:induction false} BudgetClosedForm(from: int, length: nat, limit: int, windowMs: int)
    requires windowMs >= 1
    ensures Budget(from, from + length, limit, windowMs) == Admits(limit) * CeilDiv(length, windowMs)
    decreases length
  {
    if length > windowMs {
      BudgetClosedForm(from + windowMs, length - windowMs, limit, windowMs);
      MulDistributes(Admits(limit), 1, CeilDiv(length - windowMs, windowMs));
    }
  }

  lemma {:induction false} ThroughputFrom(
      bucket: Option<Bucket>, limit: int, windowMs: int, clock: int, times: seq<int>, lo: int, hi: int)
    requires windowMs >= 1 && Clock(clock, times)
    requires bucket.Some? ==> bucket.value.count >= 1
    ensures AllowedIn(bucket, limit, windowMs, times, lo, hi) <= Admits(limit) + Budget(lo, hi, limit, windowMs)
    decreases |times|
  {
    if times == [] {
    } else if times[0] < lo {
      var next := Check(bucket, limit, windowMs, times[0]).0;
      ThroughputFrom(Some(next), limit, windowMs, times[0], times[1..], lo, hi);
    } else {
      AllowedWithinQuota(bucket, limit, windowMs, times, times[0], lo, hi);
      BudgetShrinks(lo, times[0], hi, limit, windowMs);
      if bucket.Some? && lo <= bucket.value.windowStartedAt + windowMs {
        BudgetShrinks(lo, bucket.value.windowStartedAt + windowMs, hi, limit, windowMs);
      }
    }
  }

  function Bound(limit: int, windowMs: int, length: nat): int
    requires windowMs >= 1
  {
    Admits(limit) * (CeilDiv(length, windowMs) + 1)
  }

  /**
   * Over any run of checks of a key on a clock that never goes back, and any
   * interval of `length` milliseconds, at most `limit * (ceil(length / windowMs) + 1)`
   * checks are allowed.
   */
  lemma Throughput(limit: int, windowMs: int, clock: int, times: seq<int>, lo: int, length: nat)
    requires windowMs >= 1 && Clock(clock, times)
    ensures AllowedIn(None, limit, windowMs, times, lo, lo + length) <= Bound(limit, windowMs, length)
  {
    ThroughputFrom(None, limit, windowMs, clock, times, lo, lo + length);
    BudgetClosedForm(lo, length, limit, windowMs);
    MulDistributes(Admits(limit), CeilDiv(length, windowMs), 1);
  }

  /** In any stretch as long as one window, never more than twice the limit. */
  lemma ThroughputPerWindow(limit: int, windowMs: int, clock: int, times: seq<int>, lo: int)
    requires windowMs >= 1 && Clock(clock, times)
    ensures AllowedIn(None, limit, windowMs, times, lo, lo + windowMs) <= 2 * Admits(limit)
  {
    Throughput(limit, windowMs, clock, times, lo, windowMs);
  }

  /** The bound with the configured limit itself in place of what a window really admits. */
  ghost predicate WithinLimit(limit: int, windowMs: int, times: seq<int>, lo: int, length: nat)
    requires windowMs >= 1
  {
    AllowedIn(None, limit, windowMs, times, lo, lo + length) <= limit * (CeilDiv(length, windowMs) + 1)
  }

  /** The configured limit bounds every run and interval exactly when it is at least 1. */
  lemma LimitIsExact(limit: int, windowMs: int)
    requires windowMs >= 1
    ensures limit >= 1
       <==> forall clock, times, lo, length: nat :: Clock(clock, times) ==>
                                                      WithinLimit(limit, windowMs, times, lo, length)
  {
    if limit >= 1 {
      forall clock, times, lo, length: nat | Clock(clock, times)
        ensures WithinLimit(limit, windowMs, times, lo, length)
      {
        Throughput(limit, windowMs, clock, times, lo, length);
      }
    } else {
      assert Clock(0, [0]) && AllowedIn(None, limit, windowMs, [0], 0, 0 + 1) == 1 by {
        assert [0][1..] == [];
      }
      assert limit * (CeilDiv(1, windowMs) + 1) <= 0;
      assert !WithinLimit(limit, windowMs, [0], 0, 1);
    }
  }

  // ---- exact retry time ----

  /** What every bucket in a run satisfies; in particular a lockout always outlives the window it ended. */
  ghost predicate Sound(bucket: Option<Bucket>, windowMs: int, clock: int) {
    bucket.Some? ==>
      && bucket.value.windowStartedAt <= clock
      && (bucket.value.blockedUntil.Some? ==>
            && bucket.value.blockedUntil.value >= bucket.value.windowStartedAt + 2 * windowMs
            && bucket.value.blockedUntil.value <= clock + 1024 * windowMs)
  }

  lemma CheckKeepsSound(bucket: Option<Bucket>, limit: int, windowMs: int, clock: int, now: int)
    requires windowMs >= 1 && clock <= now && Sound(bucket, windowMs, clock)
    ensures Sound(Some(Check(bucket, limit, windowMs, now).0), windowMs, now)
  {
  }

  lemma {:induction false} RunKeepsSound(
      bucket: Option<Bucket>, limit: int, windowMs: int, clock: int, times: seq<int>, now: int)
    requires windowMs >= 1 && Clock(clock, times + [now]) && Sound(bucket, windowMs, clock)
    ensures Sound(Run(bucket, limit, windowMs, times), windowMs, now)
    decreases |times|
  {
    if times == [] {
      assert (times + [now])[0] == now;
    } else {
      assert (times + [now])[0] == times[0];
      assert times[1..] + [now] == (times + [now])[1..];
      CheckKeepsSound(bucket, limit, windowMs, clock, times[0]);
      RunKeepsSound(Some(Check(bucket, limit, windowMs, times[0]).0), limit, windowMs, times[0], times[1..], now);
    }
  }

  /** While a key is locked out, checking it again changes nothing and admits nothing. */
  lemma {:induction false} BlockedStays(bucket: Bucket, limit: int, windowMs: int, waits: seq<int>, lo: int, hi: int)
    requires bucket.blockedUntil.Some?
    requires forall w :: w in waits ==> w < bucket.blockedUntil.value
    ensures Run(Some(bucket), limit, windowMs, waits) == Some(bucket)
    ensures AllowedIn(Some(bucket), limit, windowMs, waits, lo, hi) == 0
    decreases |waits|
  {
    if waits != [] {
      assert waits[0] in waits && forall w :: w in waits[1..] ==> w in waits;
      BlockedStays(bucket, limit, windowMs, waits[1..], lo, hi);
    }
  }

  /**
   * After any run of checks, a refusal at `now` with `retryAfterMs == r` is
   * exact: checks before `now + r` are all refused and leave the bucket as it
   * is, and the first check at or after `now + r` is allowed.
   */
  lemma ExactRetryTime(limit: int, windowMs: int, clock: int, times: seq<int>, now: int, waits: seq<int>, later: int)
    requires windowMs >= 1 && Clock(clock, times + [now])
    requires !Check(Run(None, limit, windowMs, times), limit, windowMs, now).1.allowed
    requires var r := Check(Run(None, limit, windowMs, times), limit, windowMs, now).1.retryAfterMs;
             (forall w :: w in waits ==> now <= w < now + r) && now + r <= later
    ensures var (bucket, refusal) := Check(Run(None, limit, windowMs, times), limit, windowMs, now);
            && 1 <= refusal.retryAfterMs <= 1024 * windowMs
            && Run(Some(bucket), limit, windowMs, waits) == Some(bucket)
            && AllowedIn(Some(bucket), limit, windowMs, waits, now, later) == 0
            && Check(Some(bucket), limit, windowMs, later).1 == CheckResult(true, 0)
            && Check(Some(bucket), limit, windowMs, later).0.count == 1
  {
    var before := Run(None, limit, windowMs, times);
    RunKeepsSound(None, limit, windowMs, clock, times, now);
    CheckKeepsSound(before, limit, windowMs, now, now);
    if before.Some? {
      BackoffBounds(windowMs, before.value.violationStreak + 1);
    }
    var bucket := Check(before, limit, windowMs, now).0;
    BlockedStays(bucket, limit, windowMs, waits, now, later);
  }
}

/** The decision of one rate-limit check, as a function of the key's bucket. */
module RateLimit {
  import opened Common

  datatype Bucket = Bucket(count: int, windowStartedAt: int, blockedUntil: Option<int>, violationStreak: nat)

  datatype CheckResult = CheckResult(allowed: bool, retryAfterMs: int)

  const ALLOWED := CheckResult(true, 0)

  function Min(a: int, b: int): int {
    if a <= b then a else b
  }

  function Pow2(n: nat): nat {
    if n == 0 then 1 else 2 * Pow2(n - 1)
  }

  function Backoff(windowMs: int, streak: nat): int {
    windowMs * Pow2(Min(streak, 10))
  }

  /** One check of a key, given the key's bucket (if any). */
  function Check(bucket: Option<Bucket>, limit: int, windowMs: int, now: int): (Bucket, CheckResult) {
    if bucket.Some? && bucket.value.blockedUntil.Some? && bucket.value.blockedUntil.value > now then
      (bucket.value, CheckResult(false, bucket.value.blockedUntil.value - now))
    else if bucket.None? || now - bucket.value.windowStartedAt >= windowMs then
      var clean := bucket.None? || bucket.value.blockedUntil.None?;
      (Bucket(1, now, None, if clean then 0 else bucket.value.violationStreak), ALLOWED)
    else
      var b := bucket.value.(count := bucket.value.count + 1);
      if b.count > limit then
        var streak := b.violationStreak + 1;
        var backoff := Backoff(windowMs, streak);
        (b.(violationStreak := streak, blockedUntil := Some(now + backoff)), CheckResult(false, backoff))
      else
        (b, ALLOWED)
  }

  /** Every lockout lasts at least two windows and at most 1024. */
  lemma BackoffBounds(windowMs: int, streak: nat)
    requires windowMs >= 1 && streak >= 1
    ensures 2 * windowMs <= Backoff(windowMs, streak) <= 1024 * windowMs
  {
  }

  lemma {:induction false} Pow2Range(k: nat)
    requires 1 <= k <= 10
    ensures 2 <= Pow2(k) <= 1024
    ensures k == 10 ==> Pow2(k) == 1024
    decreases 10 - k
  {
    if k == 10 {
      assert Pow2(5) == 32;
    } else {
      Pow2Range(k + 1);
      if k > 1 {
        Pow2Positive(k - 2);
      }
    }
  }

  lemma {:induction false} Pow2Positive(n: nat)
    ensures Pow2(n) >= 1
  {
    if n > 0 {
      Pow2Positive(n - 1);
    }
  }

  // ---- runs of checks of one key ----

  /** A clock that never goes back. */
  ghost predicate Clock(from: int, times: seq<int>) {
    && (forall i :: 0 <= i < |times| ==> from <= times[i])
    && (forall i, j :: 0 <= i < j < |times| ==> times[i] <= times[j])
  }

  function Run(bucket: Option<Bucket>, limit: int, windowMs: int, times: seq<int>): Option<Bucket>
    decreases |times|
  {
    if times == [] then bucket
    else Run(Some(Check(bucket, limit, windowMs, times[0]).0), limit, windowMs, times[1..])
  }

  /** How many of the checks whose time lies in `[lo, hi)` are allowed. */
  function AllowedIn(bucket: Option<Bucket>, limit: int, windowMs: int, times: seq<int>, lo: int, hi: int): nat
    decreases |times|
  {
    if times == [] then 0
    else
      var (next, result) := Check(bucket, limit, windowMs, times[0]);
      (if result.allowed && lo <= times[0] < hi then 1 else 0) +
      AllowedIn(Some(next), limit, windowMs, times[1..], lo, hi)
  }

  /**
   * The number of checks a window really admits: the check that opens a
   * window is admitted before any comparison with `limit`.
   */
  function Admits(limit: int): (n: int)
    ensures n >= 1
  {
    if limit >= 1 then limit else 1
  }
}

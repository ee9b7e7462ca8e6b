/** The store of buckets: one mutable bucket object per key. */
module RateLimitStore {
  import opened Common
  import RateLimit
  import RateLimitBounds

  /** One entry of the `buckets` map; its fields are updated in place. */
  class BucketRecord {
    var count: int
    var windowStartedAt: int
    var blockedUntil: Option<int>
    var violationStreak: nat

    constructor (count: int, windowStartedAt: int, violationStreak: nat)
      ensures Value() == RateLimit.Bucket(count, windowStartedAt, None, violationStreak)
    {
      this.count, this.windowStartedAt := count, windowStartedAt;
      this.blockedUntil, this.violationStreak := None, violationStreak;
    }

    ghost function Value(): RateLimit.Bucket
      reads this
    {
      RateLimit.Bucket(count, windowStartedAt, blockedUntil, violationStreak)
    }

    ghost predicate InWindow(windowMs: int, now: int)
      reads this
    {
      now - windowStartedAt < windowMs && (blockedUntil.Some? ==> blockedUntil.value <= now)
    }

    /** One more check in a window that is open. */
    method Count(limit: int, windowMs: int, now: int) returns (result: RateLimit.CheckResult)
      requires InWindow(windowMs, now)
      modifies this
      ensures (Value(), result) == RateLimit.Check(Some(old(Value())), limit, windowMs, now)
    {
      count := count + 1;
      if count > limit {
        violationStreak := violationStreak + 1;
        var backoffMs := RateLimit.Backoff(windowMs, violationStreak);
        blockedUntil := Some(now + backoffMs);
        return RateLimit.CheckResult(false, backoffMs);
      }
      return RateLimit.ALLOWED;
    }
  }

  class Store {
    var buckets: map<string, BucketRecord>

    constructor ()
      ensures Valid() && Contents() == map[]
    {
      buckets := map[];
    }

    /** Distinct keys never share a bucket object. */
    ghost predicate Valid()
      reads this
    {
      forall j, k :: j in buckets && k in buckets && j != k ==> buckets[j] != buckets[k]
    }

    ghost function Contents(): map<string, RateLimit.Bucket>
      reads this, buckets.Values
    {
      map k | k in buckets :: buckets[k].Value()
    }

    method Check(key: string, limit: int, windowMs: int, now: int) returns (result: RateLimit.CheckResult)
      requires Valid()
      modifies this, buckets.Values
      ensures Valid() && fresh(buckets.Values - old(buckets.Values))
      ensures var (bucket, r) := RateLimit.Check(Lookup(old(Contents()), key), limit, windowMs, now);
              result == r && Contents() == old(Contents())[key := bucket]
    {
      if key in buckets {
        var bucket := buckets[key];
        if bucket.blockedUntil.Some? && bucket.blockedUntil.value > now {
          assert Contents()[key := bucket.Value()] == Contents();
          return RateLimit.CheckResult(false, bucket.blockedUntil.value - now);
        }
      }
      var windowExpired := key !in buckets || now - buckets[key].windowStartedAt >= windowMs;
      if windowExpired {
        var previousWasClean := key !in buckets || buckets[key].blockedUntil.None?;
        var streak := if previousWasClean then 0 else buckets[key].violationStreak;
        OpenWindow(key, now, streak);
        return RateLimit.ALLOWED;
      }
      result := CountInWindow(key, limit, windowMs, now);
    }

    /** A new bucket object takes the key's place. */
    method OpenWindow(key: string, now: int, streak: nat)
      requires Valid()
      modifies this
      ensures Valid() && fresh(buckets.Values - old(buckets.Values))
      ensures Contents() == old(Contents())[key := RateLimit.Bucket(1, now, None, streak)]
    {
      var bucket := new BucketRecord(1, now, streak);
      buckets := buckets[key := bucket];
      assert Contents() == old(Contents())[key := RateLimit.Bucket(1, now, None, streak)];
    }

    method CountInWindow(key: string, limit: int, windowMs: int, now: int) returns (result: RateLimit.CheckResult)
      requires Valid() && key in buckets && buckets[key].InWindow(windowMs, now)
      modifies buckets[key]
      ensures var (bucket, r) := RateLimit.Check(Some(old(Contents()[key])), limit, windowMs, now);
              result == r && Contents() == old(Contents())[key := bucket]
    {
      result := buckets[key].Count(limit, windowMs, now);
      assert Contents() == old(Contents())[key := buckets[key].Value()];
    }

    method Reset(key: string)
      requires Valid()
      modifies this
      ensures Valid() && buckets.Values <= old(buckets.Values)
      ensures Contents() == old(Contents()) - {key}
    {
      buckets := buckets - {key};
    }
  }

  function Lookup(store: map<string, RateLimit.Bucket>, key: string): Option<RateLimit.Bucket> {
    if key in store then Some(store[key]) else None
  }

  // ---- runs over many keys ----

  datatype Op = CheckOp(key: string, now: int) | ResetOp(key: string)

  /** The limit and window of each key: fixed, since a key names its endpoint. */
  datatype Policy = Policy(limit: string -> int, windowMs: string -> int)

  function Step(store: map<string, RateLimit.Bucket>, policy: Policy, op: Op): (map<string, RateLimit.Bucket>, bool) {
    match op
    case ResetOp(k) => (store - {k}, false)
    case CheckOp(k, now) =>
      var (bucket, result) := RateLimit.Check(Lookup(store, k), policy.limit(k), policy.windowMs(k), now);
      (store[k := bucket], result.allowed)
  }

  function RunStore(store: map<string, RateLimit.Bucket>, policy: Policy, ops: seq<Op>): map<string, RateLimit.Bucket>
    decreases |ops|
  {
    if ops == [] then store else RunStore(Step(store, policy, ops[0]).0, policy, ops[1..])
  }

  /** Allowed checks of `key` with a time in `[lo, hi)`, over a run of the whole store. */
  function AllowedFor(
      store: map<string, RateLimit.Bucket>, policy: Policy, ops: seq<Op>, key: string, lo: int, hi: int): nat
    decreases |ops|
  {
    if ops == [] then 0
    else
      var (next, allowed) := Step(store, policy, ops[0]);
      (if allowed && ops[0].key == key && lo <= ops[0].now < hi then 1 else 0) +
      AllowedFor(next, policy, ops[1..], key, lo, hi)
  }

  /** The times at which `key` is checked. */
  function TimesOf(ops: seq<Op>, key: string): seq<int> {
    if ops == [] then []
    else if ops[0].CheckOp? && ops[0].key == key then [ops[0].now] + TimesOf(ops[1..], key)
    else TimesOf(ops[1..], key)
  }

  ghost predicate NeverReset(ops: seq<Op>, key: string) {
    forall op :: op in ops ==> op != ResetOp(key)
  }

  /** A key is not affected by anything done to other keys. */
  lemma {:induction false} KeysAreIndependent(
      store: map<string, RateLimit.Bucket>, policy: Policy, ops: seq<Op>, key: string, lo: int, hi: int)
    requires NeverReset(ops, key)
    ensures Lookup(RunStore(store, policy, ops), key)
         == RateLimit.Run(Lookup(store, key), policy.limit(key), policy.windowMs(key), TimesOf(ops, key))
    ensures AllowedFor(store, policy, ops, key, lo, hi)
         == RateLimit.AllowedIn(Lookup(store, key), policy.limit(key), policy.windowMs(key), TimesOf(ops, key), lo, hi)
    decreases |ops|
  {
    if ops != [] {
      assert ops[0] in ops && forall op :: op in ops[1..] ==> op in ops;
      var next := Step(store, policy, ops[0]).0;
      KeysAreIndependent(next, policy, ops[1..], key, lo, hi);
      if ops[0].CheckOp? && ops[0].key == key {
        assert TimesOf(ops, key)[1..] == TimesOf(ops[1..], key);
      } else {
        assert Lookup(next, key) == Lookup(store, key);
      }
    }
  }

  /** A reset makes the key's next check a first offence again, whatever came before. */
  lemma ResetForgets(store: map<string, RateLimit.Bucket>, policy: Policy, ops: seq<Op>, key: string)
    requires NeverReset(ops, key)
    ensures Lookup(RunStore(Step(store, policy, ResetOp(key)).0, policy, ops), key)
         == RateLimit.Run(None, policy.limit(key), policy.windowMs(key), TimesOf(ops, key))
  {
    KeysAreIndependent(Step(store, policy, ResetOp(key)).0, policy, ops, key, 0, 0);
  }

  function Resets(ops: seq<Op>, key: string): nat {
    if ops == [] then 0 else (if ops[0] == ResetOp(key) then 1 else 0) + Resets(ops[1..], key)
  }

  function BeforeReset(ops: seq<Op>, key: string): seq<Op> {
    if ops == [] || ops[0] == ResetOp(key) then [] else [ops[0]] + BeforeReset(ops[1..], key)
  }

  lemma {:induction false} TimesBeforeReset(ops: seq<Op>, key: string)
    ensures TimesOf(BeforeReset(ops, key), key) <= TimesOf(ops, key)
  {
    if ops != [] && ops[0] != ResetOp(key) {
      TimesBeforeReset(ops[1..], key);
      assert BeforeReset(ops, key)[1..] == BeforeReset(ops[1..], key);
    }
  }

  function AllowedBeforeReset(
      bucket: Option<RateLimit.Bucket>, policy: Policy, ops: seq<Op>, key: string, lo: int, hi: int): nat
  {
    RateLimit.AllowedIn(
      bucket, policy.limit(key), policy.windowMs(key), TimesOf(BeforeReset(ops, key), key), lo, hi)
  }

  lemma ClockGoesOn(ops: seq<Op>, key: string, clock: int)
    requires ops != [] && RateLimit.Clock(clock, TimesOf(ops, key))
    ensures RateLimit.Clock(clock, TimesOf(ops[1..], key))
  {
    assert TimesOf(ops, key) == TimesOf(ops[1..], key) || TimesOf(ops, key)[1..] == TimesOf(ops[1..], key);
  }

  lemma NoResetYet(
      store: map<string, RateLimit.Bucket>, policy: Policy, ops: seq<Op>, key: string, lo: int, hi: int)
    requires ops != [] && ops[0] != ResetOp(key)
    ensures var next := Step(store, policy, ops[0]).0;
            AllowedFor(store, policy, ops, key, lo, hi)
              + AllowedBeforeReset(Lookup(next, key), policy, ops[1..], key, lo, hi)
            == AllowedBeforeReset(Lookup(store, key), policy, ops, key, lo, hi)
              + AllowedFor(next, policy, ops[1..], key, lo, hi)
  {
    assert BeforeReset(ops, key)[1..] == BeforeReset(ops[1..], key);
    if ops[0].CheckOp? && ops[0].key == key {
      assert TimesOf(BeforeReset(ops, key), key)[1..] == TimesOf(BeforeReset(ops[1..], key), key);
    } else {
      assert Lookup(Step(store, policy, ops[0]).0, key) == Lookup(store, key);
    }
  }

  lemma BoundBeforeReset(policy: Policy, ops: seq<Op>, key: string, clock: int, lo: int, length: nat)
    requires policy.windowMs(key) >= 1 && RateLimit.Clock(clock, TimesOf(ops, key))
    ensures AllowedBeforeReset(None, policy, ops, key, lo, lo + length)
         <= RateLimitBounds.Bound(policy.limit(key), policy.windowMs(key), length)
  {
    TimesBeforeReset(ops, key);
    RateLimitBounds.Throughput(
      policy.limit(key), policy.windowMs(key), clock, TimesOf(BeforeReset(ops, key), key), lo, length);
  }

  /** What a key gets through until its next reset, and from there on. */
  lemma {:induction false} AllowedAcrossResets(
      store: map<string, RateLimit.Bucket>, policy: Policy, ops: seq<Op>, key: string, clock: int, lo: int, length: nat)
    requires policy.windowMs(key) >= 1 && RateLimit.Clock(clock, TimesOf(ops, key))
    ensures AllowedFor(store, policy, ops, key, lo, lo + length)
         <= AllowedBeforeReset(Lookup(store, key), policy, ops, key, lo, lo + length)
            + RateLimitBounds.Bound(policy.limit(key), policy.windowMs(key), length) * Resets(ops, key)
    decreases |ops|
  {
    if ops != [] {
      var next, rest := Step(store, policy, ops[0]).0, ops[1..];
      ClockGoesOn(ops, key, clock);
      AllowedAcrossResets(next, policy, rest, key, clock, lo, length);
      if ops[0] == ResetOp(key) {
        BoundBeforeReset(policy, rest, key, clock, lo, length);
        MulDistributes(
          RateLimitBounds.Bound(policy.limit(key), policy.windowMs(key), length), 1, Resets(rest, key));
      } else {
        NoResetYet(store, policy, ops, key, lo, lo + length);
      }
    }
  }

  /**
   * Whatever the store is asked to do, a key gets at most
   * `limit * (ceil(length / windowMs) + 1)` allowed checks in any interval of
   * `length` milliseconds, and as many again for each time it is reset.
   */
  lemma StoreThroughput(policy: Policy, ops: seq<Op>, key: string, clock: int, lo: int, length: nat)
    requires policy.windowMs(key) >= 1 && RateLimit.Clock(clock, TimesOf(ops, key))
    ensures AllowedFor(map[], policy, ops, key, lo, lo + length)
         <= RateLimitBounds.Bound(policy.limit(key), policy.windowMs(key), length) * (1 + Resets(ops, key))
  {
    AllowedAcrossResets(map[], policy, ops, key, clock, lo, length);
    BoundBeforeReset(policy, ops, key, clock, lo, length);
    MulDistributes(RateLimitBounds.Bound(policy.limit(key), policy.windowMs(key), length), 1, Resets(ops, key));
  }
}

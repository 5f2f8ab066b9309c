/** Token-bucket rate limiting (`crates/statechronicle-core/src/rate_limit.rs`). */
module RateLimit {
  import opened Arithmetic
  import opened Bytes
  import opened Domain

  const MAX_QUOTA_KEY_BYTES: nat := 512

  function SatSub(a: nat, b: nat): nat { if a < b then 0 else a - b }
  function SatMul(a: U64, b: U64): U64 { if a * b > U64_MAX then U64_MAX else a * b }
  function Min(a: nat, b: nat): nat { if a < b then a else b }
  function Max(a: nat, b: nat): nat { if a < b then b else a }

  datatype Decision = Decision(allowed: bool, remaining: U64, retryAfterMs: U64)

  /** Capacity and refill rate, both at least one. */
  datatype Policy = Policy(capacity: U64, rate: U64)

  predicate PolicyOk(p: Policy) { p.capacity >= 1 && p.rate >= 1 }

  /** `(tokens, stamp)`. */
  datatype Bucket = Bucket(tokens: U64, stamp: U64)

  function FreshBucket(p: Policy): Bucket { Bucket(p.capacity, 0) }

  /** Whole tokens that have accrued since the stamp. */
  function Accrued(p: Policy, b: Bucket, now: U64): U64 { SatMul(SatSub(now, b.stamp), p.rate) / 1000 }

  /** `refill_state`: the stamp moves only when a whole token accrued. */
  function Refill(p: Policy, b: Bucket, now: U64): Bucket {
    var refill := Accrued(p, b, now);
    if refill > 0 then Bucket(Min(SaturatingAdd(b.tokens, refill), p.capacity), now) else b
  }

  /** Milliseconds until `deficit` tokens are expected. */
  function RetryAfter(p: Policy, deficit: U64): U64
    requires PolicyOk(p)
  {
    DivFits(SaturatingAdd(SatMul(deficit, 1000), p.rate - 1), p.rate);
    SaturatingAdd(SatMul(deficit, 1000), p.rate - 1) / p.rate
  }

  lemma DivFits(x: U64, d: nat)
    requires d >= 1
    ensures 0 <= x / d <= x
  {
  }

  lemma DivAtLeastOne(x: nat, d: nat)
    requires 1 <= d <= x
    ensures x / d >= 1
  {
  }

  /** The retry time of a short bucket is never the zero that means "no denial". */
  lemma RetryIsPositive(p: Policy, deficit: U64)
    requires PolicyOk(p) && deficit >= 1
    ensures RetryAfter(p, deficit) >= 1
  {
    DivAtLeastOne(SaturatingAdd(SatMul(deficit, 1000), p.rate - 1), p.rate);
  }

  // ----- One bucket -----

  /** Decision and successor state of one request. */
  function Acquire(p: Policy, b: Bucket, now: U64, n: U64): (Decision, Bucket)
    requires PolicyOk(p)
  {
    if n == 0 then (Decision(true, Min(SaturatingAdd(b.tokens, Accrued(p, b, now)), p.capacity), 0), b)
    else if n > p.capacity then (Decision(false, p.capacity, U64_MAX), b)
    else
      var r := Refill(p, b, now);
      if r.tokens >= n then (Decision(true, r.tokens - n, 0), Bucket(r.tokens - n, r.stamp))
      else (Decision(false, r.tokens, RetryAfter(p, n - r.tokens)), r)
  }

  class TokenBucket {
    const policy: Policy
    var state: Bucket

    constructor (capacity: U64, rate: U64)
      ensures PolicyOk(policy) && policy == Policy(Max(capacity, 1), Max(rate, 1)) && state == FreshBucket(policy)
    {
      policy := Policy(Max(capacity, 1), Max(rate, 1));
      state := Bucket(Max(capacity, 1), 0);
    }

    method TryAcquireN(now: U64, n: U64) returns (d: Decision)
      requires PolicyOk(policy)
      modifies this
      ensures (d, state) == Acquire(policy, old(state), now, n)
    {
      if n == 0 {
        d := Decision(true, Min(SaturatingAdd(state.tokens, Accrued(policy, state, now)), policy.capacity), 0);
        return;
      }
      if n > policy.capacity { return Decision(false, policy.capacity, U64_MAX); }
      var refill := SatMul(SatSub(now, state.stamp), policy.rate) / 1000;
      if refill > 0 { state := Bucket(Min(SaturatingAdd(state.tokens, refill), policy.capacity), now); }
      if state.tokens >= n {
        state := Bucket(state.tokens - n, state.stamp);
        return Decision(true, state.tokens, 0);
      }
      d := Decision(false, state.tokens, RetryAfter(policy, n - state.tokens));
    }
  }

  // ----- The bound over every run -----

  datatype Request = Request(now: U64, n: U64)

  /** Tokens granted over a run of requests. */
  function Granted(p: Policy, b: Bucket, reqs: seq<Request>): nat
    requires PolicyOk(p)
    decreases |reqs|
  {
    if reqs == [] then 0
    else
      var (d, b') := Acquire(p, b, reqs[0].now, reqs[0].n);
      (if d.allowed then reqs[0].n else 0) + Granted(p, b', reqs[1..])
  }

  /** Whole tokens earned in `ms` milliseconds. */
  function Earned(rate: nat, ms: nat): nat { (ms * rate) / 1000 }

  /** Whole tokens earned over adjoining intervals never exceed those over the whole. */
  lemma AccrualSplits(x: nat, y: nat, rate: nat)
    ensures Earned(rate, x) + Earned(rate, y) <= Earned(rate, x + y)
  {
    MulAdd(x, y, rate);
  }

  /** What a step takes and leaves behind is covered by the old tokens and by what was earned
      up to the new stamp, which never moves back. */
  ghost predicate StepCovered(rate: nat, b: Bucket, now: U64, taken: nat, b': Bucket) {
    && (b'.stamp == b.stamp || b'.stamp == now > b.stamp)
    && taken + b'.tokens <= b.tokens + Earned(rate, b'.stamp - b.stamp)
  }

  lemma BoundExtends(rate: nat, b: Bucket, now: U64, taken: nat, b': Bucket, rest: nat, latest: nat)
    requires StepCovered(rate, b, now, taken, b') && b'.stamp <= latest
    requires rest <= b'.tokens + Earned(rate, latest - b'.stamp)
    ensures taken + rest <= b.tokens + Earned(rate, latest - b.stamp)
  {
    AccrualSplits(b'.stamp - b.stamp, latest - b'.stamp, rate);
  }

  lemma StampStays(rate: nat, b: Bucket, now: U64, taken: nat, b': Bucket, latest: nat)
    requires StepCovered(rate, b, now, taken, b') && b.stamp <= latest && now <= latest
    ensures b'.stamp <= latest
  {
  }

  lemma AcquireIsCovered(p: Policy, b: Bucket, now: U64, n: U64)
    requires PolicyOk(p)
    ensures var (d, b') := Acquire(p, b, now, n); StepCovered(p.rate, b, now, if d.allowed then n else 0, b')
  {
  }

  /** Over every run, with timestamps in any order, a bucket grants no more than it held plus
      what its rate earned from its stamp to the latest timestamp. */
  lemma {:induction false} GrantedIsBounded(p: Policy, b: Bucket, reqs: seq<Request>, latest: nat)
    requires PolicyOk(p)
    requires b.stamp <= latest && forall i :: 0 <= i < |reqs| ==> reqs[i].now <= latest
    ensures Granted(p, b, reqs) <= b.tokens + Earned(p.rate, latest - b.stamp)
    decreases |reqs|
  {
    hide Acquire, Earned;
    if reqs != [] {
      var (d, b') := Acquire(p, b, reqs[0].now, reqs[0].n);
      AcquireIsCovered(p, b, reqs[0].now, reqs[0].n);
      GrantedIsBounded(p, b', reqs[1..], latest);
      BoundExtends(p.rate, b, reqs[0].now, if d.allowed then reqs[0].n else 0, b', Granted(p, b', reqs[1..]), latest);
    }
  }

  // ----- The retry promise -----

  lemma CeilCovers(x: nat, d: nat)
    requires d >= 1
    ensures ((x + d - 1) / d) * d >= x
  {
    var q, r := (x + d - 1) / d, (x + d - 1) % d;
    assert q * d + r == x + d - 1 && r < d;
  }

  /** A denied caller whose clock has not fallen behind the stamp and who waits as told is
      served, as long as the retry computation and the new timestamp stay within `u64`. */
  lemma RetryIsHonoured(p: Policy, b: Bucket, now: U64, n: U64)
    requires PolicyOk(p) && b.stamp <= now && 0 < n <= p.capacity
    requires !Acquire(p, b, now, n).0.allowed
    requires (n - Refill(p, b, now).tokens) * 1000 + p.rate - 1 <= U64_MAX
    requires now + Acquire(p, b, now, n).0.retryAfterMs <= U64_MAX
    ensures var (d, b') := Acquire(p, b, now, n); Acquire(p, b', now + d.retryAfterMs, n).0.allowed
  {
    var (d, b') := Acquire(p, b, now, n);
    var deficit := n - b'.tokens;
    var r := d.retryAfterMs;
    CeilCovers(deficit * 1000, p.rate);
    assert r == (deficit * 1000 + p.rate - 1) / p.rate;
    var elapsed := now + r - b'.stamp;
    MulMonotone(r, elapsed, p.rate);
    assert Accrued(p, b', now + r) >= deficit;
  }

  lemma BelowCeil(k: nat, x: nat, d: nat)
    requires d >= 1 && k < (x + d - 1) / d
    ensures k * d < x
  {
    var q, r := (x + d - 1) / d, (x + d - 1) % d;
    assert q * d + r == x + d - 1;
    MulMonotone(k + 1, q, d);
    MulAdd(k, 1, d);
  }

  /** The quotient that a saturated retry is cut to. */
  lemma SaturatedQuotient(d: nat)
    requires d >= 1
    ensures U64_MAX - d < (U64_MAX / d) * d <= U64_MAX
  {
    var q, r := U64_MAX / d, U64_MAX % d;
    assert q * d + r == U64_MAX && r < d;
  }

  /** The token test of a later attempt, as a test on what has accrued. */
  lemma GrantedOnAccrual(p: Policy, b': Bucket, later: U64, n: U64)
    requires PolicyOk(p) && b'.tokens < n <= p.capacity
    ensures Acquire(p, b', later, n).0.allowed <==> SatMul(SatSub(later, b'.stamp), p.rate) >= (n - b'.tokens) * 1000
  {
    var accrued := Accrued(p, b', later);
    assert accrued >= n - b'.tokens <==> SatMul(SatSub(later, b'.stamp), p.rate) >= (n - b'.tokens) * 1000;
  }

  lemma ClockBehindFails(p: Policy, b': Bucket, now: U64, n: U64, r: U64)
    requires PolicyOk(p) && b'.tokens < n <= p.capacity && r == RetryAfter(p, n - b'.tokens)
    requires now < b'.stamp && now + r <= U64_MAX
    ensures !Acquire(p, b', now + r, n).0.allowed
  {
    var need := (n - b'.tokens) * 1000;
    RetryIsPositive(p, n - b'.tokens);
    GrantedOnAccrual(p, b', now + r, n);
    var elapsed := SatSub(now + r, b'.stamp);
    MulMonotone(elapsed, r - 1, p.rate);
    if need + p.rate - 1 <= U64_MAX {
      BelowCeil(r - 1, need, p.rate);
    } else {
      SaturatedQuotient(p.rate);
      MulAdd(r - 1, 1, p.rate);
    }
  }

  lemma SaturatedRetry(p: Policy, b': Bucket, now: U64, n: U64, r: U64)
    requires PolicyOk(p) && b'.tokens < n <= p.capacity && r == RetryAfter(p, n - b'.tokens)
    requires b'.stamp <= now && now + r <= U64_MAX
    requires (n - b'.tokens) * 1000 <= U64_MAX < (n - b'.tokens) * 1000 + p.rate - 1
    ensures Acquire(p, b', now + r, n).0.allowed <==> r * p.rate >= (n - b'.tokens) * 1000 || b'.stamp < now
  {
    SaturatedQuotient(p.rate);
    GrantedOnAccrual(p, b', now + r, n);
    if b'.stamp < now {
      MulMonotone(r + 1, now + r - b'.stamp, p.rate);
      MulAdd(r, 1, p.rate);
    }
  }

  /** The retry promise, exactly: a denied caller who comes back at the time given is served if
      and only if the clock was not behind the stamp and the deficit can be computed, and then
      either the retry was not cut short, or it covers the deficit anyway, or time had already
      been accruing before the denial. */
  lemma RetryIsHonouredIff(p: Policy, b: Bucket, now: U64, n: U64)
    requires PolicyOk(p) && 0 < n <= p.capacity && !Acquire(p, b, now, n).0.allowed
    requires now + Acquire(p, b, now, n).0.retryAfterMs <= U64_MAX
    ensures var (d, b') := Acquire(p, b, now, n);
            var need := (n - Refill(p, b, now).tokens) * 1000;
            Acquire(p, b', now + d.retryAfterMs, n).0.allowed <==>
              && b.stamp <= now
              && need <= U64_MAX
              && (need + p.rate - 1 <= U64_MAX || d.retryAfterMs * p.rate >= need || Refill(p, b, now).stamp < now)
  {
    var (d, b') := Acquire(p, b, now, n);
    assert b' == Refill(p, b, now) && (b.stamp > now ==> b' == b) && (b.stamp <= now ==> b'.stamp <= now);
    var need := (n - b'.tokens) * 1000;
    hide Refill, RetryAfter;
    if b.stamp > now {
      ClockBehindFails(p, b', now, n, d.retryAfterMs);
    } else if need > U64_MAX {
      GrantedOnAccrual(p, b', now + d.retryAfterMs, n);
    } else if need + p.rate - 1 <= U64_MAX {
      RetryIsHonoured(p, b, now, n);
    } else {
      SaturatedRetry(p, b', now, n, d.retryAfterMs);
    }
  }

  /** Where the retry arithmetic fits in `u64`, the clock alone decides. */
  lemma RetryNeedsTheClock(p: Policy, b: Bucket, now: U64, n: U64)
    requires PolicyOk(p) && 0 < n <= p.capacity && !Acquire(p, b, now, n).0.allowed
    requires (n - Refill(p, b, now).tokens) * 1000 + p.rate - 1 <= U64_MAX
    requires now + Acquire(p, b, now, n).0.retryAfterMs <= U64_MAX
    ensures var (d, b') := Acquire(p, b, now, n);
            Acquire(p, b', now + d.retryAfterMs, n).0.allowed <==> b.stamp <= now
  {
    RetryIsHonouredIff(p, b, now, n);
    hide Acquire, Refill;
  }

  /** Both provisos are needed: a clock behind the stamp, and a saturated retry. */
  lemma RetryCanFail()
    ensures var p, b := Policy(1, 1), Bucket(0, 10_000);
            && !Acquire(p, b, 0, 1).0.allowed && Acquire(p, b, 0, 1).0.retryAfterMs == 1000
            && !Acquire(p, Acquire(p, b, 0, 1).1, 1000, 1).0.allowed
    ensures var p, b := Policy(U64_MAX, 1), Bucket(0, 0);
            && !Acquire(p, b, 0, U64_MAX).0.allowed && Acquire(p, b, 0, U64_MAX).0.retryAfterMs == U64_MAX
            && !Acquire(p, Acquire(p, b, 0, U64_MAX).1, U64_MAX, U64_MAX).0.allowed
  {
    assert RetryAfter(Policy(1, 1), 1) == 1000;
  }

  /** The retry is the wait for the whole deficit, not for one token: here one token is there
      after half of it. */
  lemma RetryIsForTheDeficit()
    ensures var p, b := Policy(2, 1), Bucket(0, 0);
            && !Acquire(p, b, 0, 2).0.allowed && Acquire(p, b, 0, 2).0.retryAfterMs == 2000
            && Acquire(p, Acquire(p, b, 0, 2).1, 1000, 1).0.allowed
  {
    assert RetryAfter(Policy(2, 1), 2) == 2000;
  }

  lemma QuotientIs(x: nat, d: nat, q: nat)
    requires d >= 1
    ensures x / d == q <==> q * d <= x < (q + 1) * d
  {
    var q', r := x / d, x % d;
    assert q' * d + r == x && 0 <= r < d;
    MulAdd(q, 1, d);
    MulAdd(q', 1, d);
    if q < q' { MulMonotone(q + 1, q', d); }
    if q' < q { MulMonotone(q' + 1, q, d); }
  }

  lemma OneTokenRetry(p: Policy)
    requires PolicyOk(p)
    ensures p.rate >= 1000 ==> RetryAfter(p, 1) == 1
    ensures p.rate < 1000 ==> RetryAfter(p, 1) * p.rate < 1000 + p.rate
  {
    var x := SaturatingAdd(1000, p.rate - 1);
    if p.rate >= 1000 {
      QuotientIs(x, p.rate, 1);
    } else {
      assert x == 999 + p.rate;
      QuotientIs(x, p.rate, RetryAfter(p, 1));
    }
  }

  /** Exactly when the time until one token, which is what the field is documented to be, is the
      time given: for a deficit of one, for a rate that earns the deficit within a millisecond,
      and for rates so large that every wait is cut to one millisecond. */
  lemma OneTokenIff(p: Policy, deficit: U64)
    requires PolicyOk(p) && deficit >= 1
    ensures RetryAfter(p, deficit) == RetryAfter(p, 1) <==>
            deficit == 1 || deficit * 1000 <= p.rate || 2 * p.rate > U64_MAX
  {
    OneTokenRetry(p);
    var q, x := RetryAfter(p, 1), SaturatingAdd(SatMul(deficit, 1000), p.rate - 1);
    assert RetryAfter(p, deficit) == x / p.rate;
    QuotientIs(x, p.rate, q);
    MulAdd(q, 1, p.rate);
    hide RetryAfter;
    if deficit > 1 && p.rate < 1000 {
      assert x >= 2000 + p.rate - 1;
    }
  }

  // ----- Keyed buckets -----

  predicate KeyOk(key: Id) { !IsEmpty(key) && |key.utf8| <= MAX_QUOTA_KEY_BYTES }

  type Buckets = map<Id, Bucket>

  const REFUSED: Decision := Decision(false, 0, 1000)

  function BucketOf(p: Policy, bs: Buckets, key: Id): Bucket { if key in bs then bs[key] else FreshBucket(p) }

  /** Decision and successor map of a single-key request. */
  function AcquireOne(p: Policy, maxKeys: nat, bs: Buckets, key: Id, now: U64, n: U64): (Decision, Buckets)
    requires PolicyOk(p)
  {
    if !KeyOk(key) then (REFUSED, bs)
    else if n == 0 then (Decision(true, p.capacity, 0), bs)
    else if n > p.capacity then (Decision(false, p.capacity, U64_MAX), bs)
    else if key !in bs && |bs| >= maxKeys then (REFUSED, bs)
    else
      var (d, b) := Acquire(p, BucketOf(p, bs, key), now, n);
      (d, bs[key := b])
  }

  /** Each key's bucket refilled to `now`, missing ones created full. */
  function Refilled(p: Policy, bs: Buckets, key: Id, now: U64): Bucket { Refill(p, BucketOf(p, bs, key), now) }

  function Debited(b: Bucket, n: nat): Bucket { Bucket(SatSub(b.tokens, n), b.stamp) }

  /** The map after a multi-key request: every named bucket refilled, and each debited exactly
      once if the request is granted; no other bucket changes. */
  function AfterMany(p: Policy, bs: Buckets, keys: set<Id>, now: U64, debit: nat): Buckets
  {
    map k | k in bs.Keys + keys ::
      if k in keys then Debited(Refilled(p, bs, k, now), debit) else bs[k]
  }

  ghost predicate Covers(p: Policy, bs: Buckets, keys: set<Id>, now: U64, n: nat) {
    forall k :: k in keys ==> n <= Refilled(p, bs, k, now).tokens
  }

  /** The smallest refilled balance. */
  ghost predicate IsLeastBalance(p: Policy, bs: Buckets, keys: set<Id>, now: U64, least: nat) {
    && (forall k :: k in keys ==> least <= Refilled(p, bs, k, now).tokens)
    && (exists k :: k in keys && least == Refilled(p, bs, k, now).tokens)
  }

  function Shortfall(p: Policy, bs: Buckets, key: Id, now: U64, n: U64): U64 {
    if Refilled(p, bs, key, now).tokens < n then n - Refilled(p, bs, key, now).tokens else 0
  }

  /** The longest retry among the short buckets. */
  ghost predicate IsLongestRetry(p: Policy, bs: Buckets, keys: set<Id>, now: U64, n: U64, retry: nat)
    requires PolicyOk(p)
  {
    && (forall k :: k in keys && Shortfall(p, bs, k, now, n) > 0 ==>
          RetryAfter(p, Shortfall(p, bs, k, now, n)) <= retry)
    && (exists k :: k in keys && Shortfall(p, bs, k, now, n) > 0 && RetryAfter(p, Shortfall(p, bs, k, now, n)) == retry)
  }

  /** What the preflight pass knows once it has seen `done`. */
  ghost predicate Inspected(p: Policy, bs: Buckets, done: set<Id>, now: U64, n: U64, least: U64, longest: U64)
    requires PolicyOk(p)
  {
    && (if done == {} then least == U64_MAX else IsLeastBalance(p, bs, done, now, least))
    && (longest == 0 <==> Covers(p, bs, done, now, n))
    && (longest != 0 ==> IsLongestRetry(p, bs, done, now, n, longest))
  }

  /** How a multi-key request that reaches the buckets must end. */
  ghost predicate ManyOutcome(p: Policy, bs: Buckets, keys: set<Id>, now: U64, n: U64, d: Decision, bs': Buckets)
    requires PolicyOk(p)
  {
    if Covers(p, bs, keys, now, n)
    then d.allowed && d.retryAfterMs == 0 && IsLeastBalance(p, bs, keys, now, d.remaining + n)
         && bs' == AfterMany(p, bs, keys, now, n)
    else !d.allowed && IsLeastBalance(p, bs, keys, now, d.remaining)
         && IsLongestRetry(p, bs, keys, now, n, d.retryAfterMs)
         && bs' == AfterMany(p, bs, keys, now, 0)
  }

  function KeySet(keys: seq<Id>): set<Id> { set i | 0 <= i < |keys| :: keys[i] }

  /** Every exit of a multi-key request. */
  ghost predicate ManyStep(p: Policy, maxKeys: nat, bs: Buckets, keys: seq<Id>, now: U64, n: U64,
                           d: Decision, bs': Buckets)
    requires PolicyOk(p)
  {
    if keys == [] || (exists i :: 0 <= i < |keys| && !KeyOk(keys[i])) then d == REFUSED && bs' == bs
    else if n == 0 then d == Decision(true, p.capacity, 0) && bs' == bs
    else if n > p.capacity then d == Decision(false, p.capacity, U64_MAX) && bs' == bs
    else if |bs| + |KeySet(keys) - bs.Keys| > maxKeys then d == REFUSED && bs' == bs
    else ManyOutcome(p, bs, KeySet(keys), now, n, d, bs')
  }

  class KeyedRateLimiter {
    const policy: Policy
    const maxKeys: nat
    var buckets: Buckets

    ghost predicate Valid()
      reads this
    {
      PolicyOk(policy) && maxKeys >= 1 && |buckets| <= maxKeys
    }

    constructor (capacity: U64, rate: U64, maxKeys: nat)
      ensures Valid() && policy == Policy(Max(capacity, 1), Max(rate, 1))
              && this.maxKeys == Max(maxKeys, 1) && buckets == map[]
    {
      policy := Policy(Max(capacity, 1), Max(rate, 1));
      this.maxKeys := Max(maxKeys, 1);
      buckets := map[];
    }

    method TryAcquireN(key: Id, now: U64, n: U64) returns (d: Decision)
      requires Valid()
      modifies this
      ensures Valid()
      ensures (d, buckets) == AcquireOne(policy, maxKeys, old(buckets), key, now, n)
    {
      if !KeyOk(key) { return REFUSED; }
      if n == 0 { return Decision(true, policy.capacity, 0); }
      if n > policy.capacity { return Decision(false, policy.capacity, U64_MAX); }
      hide Acquire;
      if key !in buckets {
        if |buckets| >= maxKeys { return REFUSED; }
        GrowsByOne(buckets, key, FreshBucket(policy));
        buckets := buckets[key := FreshBucket(policy)];
      }
      var (decision, b) := Acquire(policy, buckets[key], now, n);
      GrowsByOne(buckets, key, b);
      buckets := buckets[key := b];
      assert buckets == old(buckets)[key := b];
      d := decision;
    }

    /** `try_acquire_many`: either every distinct key is debited once, or none is. */
    method TryAcquireMany(keys: seq<Id>, now: U64, n: U64) returns (d: Decision)
      requires Valid()
      modifies this
      ensures Valid()
      ensures ManyStep(policy, maxKeys, old(buckets), keys, now, n, d, buckets)
    {
      hide Refill, RetryAfter, IsLeastBalance, IsLongestRetry, AfterMany;
      if keys == [] { return REFUSED; }
      for i := 0 to |keys|
        invariant buckets == old(buckets)
        invariant forall j :: 0 <= j < i ==> KeyOk(keys[j])
      {
        if !KeyOk(keys[i]) { return REFUSED; }
      }
      if n == 0 { return Decision(true, policy.capacity, 0); }
      if n > policy.capacity { return Decision(false, policy.capacity, U64_MAX); }
      var unique := KeySet(keys);
      assert keys[0] in unique;
      var newKeys := |unique - buckets.Keys|;
      if |buckets| + newKeys > maxKeys { return REFUSED; }
      AfterSize(policy, buckets, unique, now, 0);
      AfterSize(policy, buckets, unique, now, n);
      var least, longest := RefillAll(unique, now, n);
      if longest != 0 {
        return Decision(false, least, longest);
      }
      LeastCovers(policy, old(buckets), unique, now, n, least);
      DebitAll(unique, old(buckets), now, n);
      d := Decision(true, least - n, 0);
    }

    /** Creates the missing buckets, then refills and inspects every one without consuming. */
    method RefillAll(unique: set<Id>, now: U64, n: U64) returns (least: U64, longest: U64)
      requires PolicyOk(policy) && unique != {} && n > 0
      modifies this
      ensures buckets == AfterMany(policy, old(buckets), unique, now, 0)
      ensures Inspected(policy, old(buckets), unique, now, n, least, longest)
    {
      ghost var bs := buckets;
      buckets := map k | k in buckets.Keys + unique :: BucketOf(policy, buckets, k);
      least, longest := U64_MAX, 0;
      assert Inspected(policy, bs, {}, now, n, least, longest);
      assert buckets == PartRefilled(policy, bs, unique, {}, now);
      hide Refill, RetryAfter, Inspected, PartRefilled;
      var todo := unique;
      ghost var done: set<Id> := {};
      while todo != {}
        invariant done !! todo && done + todo == unique
        invariant buckets == PartRefilled(policy, bs, unique, done, now)
        invariant Inspected(policy, bs, done, now, n, least, longest)
        decreases todo
      {
        var k :| k in todo;
        RefillNext(policy, bs, unique, done, k, now);
        var b := Refill(policy, buckets[k], now);
        buckets := buckets[k := b];
        InspectNext(policy, bs, done, k, now, n, least, longest);
        least := Min(least, b.tokens);
        if b.tokens < n {
          longest := Max(longest, RetryAfter(policy, n - b.tokens));
        }
        done := done + {k};
        todo := todo - {k};
      }
      assert done == unique;
      AllRefilled(policy, bs, unique, now);
    }

    method DebitAll(unique: set<Id>, ghost bs: Buckets, now: U64, n: U64)
      requires Covers(policy, bs, unique, now, n)
      requires buckets == AfterMany(policy, bs, unique, now, 0)
      modifies this
      ensures buckets == AfterMany(policy, bs, unique, now, n)
    {
      hide Refill;
      var todo := unique;
      while todo != {}
        invariant todo <= unique && buckets.Keys == bs.Keys + unique
        invariant forall k :: k in buckets && k !in unique ==> buckets[k] == bs[k]
        invariant forall k :: k in todo ==> buckets[k] == Refilled(policy, bs, k, now)
        invariant forall k :: k in unique && k !in todo ==> buckets[k] == Debited(Refilled(policy, bs, k, now), n)
        decreases todo
      {
        var k :| k in todo;
        buckets := buckets[k := Debited(buckets[k], n)];
        todo := todo - {k};
      }
      assert buckets == AfterMany(policy, bs, unique, now, n);
    }
  }

  /** The map once the keys in `done` have been refilled. */
  ghost function PartRefilled(p: Policy, bs: Buckets, keys: set<Id>, done: set<Id>, now: U64): Buckets {
    map k | k in bs.Keys + keys :: if k in done then Refilled(p, bs, k, now) else BucketOf(p, bs, k)
  }

  lemma RefillNext(p: Policy, bs: Buckets, keys: set<Id>, done: set<Id>, k: Id, now: U64)
    requires k in keys && k !in done
    ensures k in PartRefilled(p, bs, keys, done, now) && PartRefilled(p, bs, keys, done, now)[k] == BucketOf(p, bs, k)
    ensures PartRefilled(p, bs, keys, done, now)[k := Refilled(p, bs, k, now)]
            == PartRefilled(p, bs, keys, done + {k}, now)
  {
    hide Refill;
  }

  lemma AllRefilled(p: Policy, bs: Buckets, keys: set<Id>, now: U64)
    ensures PartRefilled(p, bs, keys, keys, now) == AfterMany(p, bs, keys, now, 0)
  {
    hide Refill;
  }

  lemma GrowsByOne(bs: Buckets, key: Id, b: Bucket)
    ensures |bs[key := b]| == |bs| + (if key in bs then 0 else 1)
  {
    assert bs[key := b].Keys == bs.Keys + {key};
  }

  lemma AfterSize(p: Policy, bs: Buckets, keys: set<Id>, now: U64, debit: nat)
    ensures |AfterMany(p, bs, keys, now, debit)| == |bs| + |keys - bs.Keys|
  {
    hide Refill;
    assert AfterMany(p, bs, keys, now, debit).Keys == bs.Keys + (keys - bs.Keys);
  }

  lemma LeastCovers(p: Policy, bs: Buckets, keys: set<Id>, now: U64, n: U64, least: U64)
    requires Covers(p, bs, keys, now, n) && IsLeastBalance(p, bs, keys, now, least)
    ensures n <= least
  {
  }

  lemma InspectNext(p: Policy, bs: Buckets, done: set<Id>, k: Id, now: U64, n: U64, least: U64, longest: U64)
    requires PolicyOk(p) && Inspected(p, bs, done, now, n, least, longest)
    ensures var short := Shortfall(p, bs, k, now, n);
            Inspected(p, bs, done + {k}, now, n, Min(least, Refilled(p, bs, k, now).tokens),
                      if short > 0 then Max(longest, RetryAfter(p, short)) else longest)
  {
    hide Refill, RetryAfter, IsLeastBalance, IsLongestRetry, Covers;
    LeastStep(p, bs, done, k, now, least);
    LongestStep(p, bs, done, k, now, n, longest);
  }

  lemma LeastStep(p: Policy, bs: Buckets, done: set<Id>, k: Id, now: U64, least: U64)
    requires done == {} ==> least == U64_MAX
    requires done != {} ==> IsLeastBalance(p, bs, done, now, least)
    ensures IsLeastBalance(p, bs, done + {k}, now, Min(least, Refilled(p, bs, k, now).tokens))
  {
    assert k in done + {k};
    if done != {} {
      var w :| w in done && least == Refilled(p, bs, w, now).tokens;
      assert w in done + {k};
    }
  }

  lemma LongestStep(p: Policy, bs: Buckets, done: set<Id>, k: Id, now: U64, n: U64, longest: U64)
    requires PolicyOk(p)
    requires longest == 0 <==> Covers(p, bs, done, now, n)
    requires longest != 0 ==> IsLongestRetry(p, bs, done, now, n, longest)
    ensures var short := Shortfall(p, bs, k, now, n);
            var next := if short > 0 then Max(longest, RetryAfter(p, short)) else longest;
            && (next == 0 <==> Covers(p, bs, done + {k}, now, n))
            && (next != 0 ==> IsLongestRetry(p, bs, done + {k}, now, n, next))
  {
    var short := Shortfall(p, bs, k, now, n);
    assert k in done + {k};
    if short > 0 { RetryIsPositive(p, short); }
    if longest != 0 {
      var w :| w in done && Shortfall(p, bs, w, now, n) > 0 && RetryAfter(p, Shortfall(p, bs, w, now, n)) == longest;
      assert w in done + {k};
      assert !Covers(p, bs, done + {k}, now, n);
    }
  }

  lemma OneKeyLeast(p: Policy, bs: Buckets, key: Id, now: U64, least: nat)
    requires IsLeastBalance(p, bs, {key}, now, least)
    ensures least == Refilled(p, bs, key, now).tokens
  {
  }

  lemma OneKeyLongest(p: Policy, bs: Buckets, key: Id, now: U64, n: U64, retry: nat)
    requires PolicyOk(p) && IsLongestRetry(p, bs, {key}, now, n, retry)
    ensures Refilled(p, bs, key, now).tokens < n && retry == RetryAfter(p, n - Refilled(p, bs, key, now).tokens)
  {
  }

  lemma OneKeyAfter(p: Policy, bs: Buckets, key: Id, now: U64, debit: nat)
    ensures AfterMany(p, bs, {key}, now, debit) == bs[key := Debited(Refilled(p, bs, key, now), debit)]
  {
    hide Refill;
    assert bs.Keys + {key} == bs[key := Debited(Refilled(p, bs, key, now), debit)].Keys;
  }

  lemma OneKeyRoom(bs: Buckets, key: Id)
    ensures |{key} - bs.Keys| == if key in bs then 0 else 1
  {
    assert {key} - bs.Keys == if key in bs then {} else {key};
  }

  /** A single-key request that reaches its bucket. */
  lemma OneKeyShape(p: Policy, maxKeys: nat, bs: Buckets, key: Id, now: U64, n: U64)
    requires PolicyOk(p) && KeyOk(key) && 0 < n <= p.capacity
    requires |bs| + |{key} - bs.Keys| <= maxKeys
    ensures var r := Refilled(p, bs, key, now);
            AcquireOne(p, maxKeys, bs, key, now, n) ==
            if r.tokens >= n then (Decision(true, r.tokens - n, 0), bs[key := Debited(r, n)])
            else (Decision(false, r.tokens, RetryAfter(p, n - r.tokens)), bs[key := Debited(r, 0)])
  {
    OneKeyRoom(bs, key);
    hide Refill, RetryAfter;
  }

  lemma OneKeyOutcome(p: Policy, maxKeys: nat, bs: Buckets, key: Id, now: U64, n: U64, d: Decision, bs': Buckets)
    requires PolicyOk(p) && KeyOk(key) && 0 < n <= p.capacity
    requires |bs| + |{key} - bs.Keys| <= maxKeys
    requires ManyOutcome(p, bs, {key}, now, n, d, bs')
    ensures (d, bs') == AcquireOne(p, maxKeys, bs, key, now, n)
  {
    OneKeyShape(p, maxKeys, bs, key, now, n);
    hide Refilled, RetryAfter, IsLeastBalance, IsLongestRetry, AfterMany, AcquireOne;
    if Covers(p, bs, {key}, now, n) {
      assert key in {key};
      OneKeyLeast(p, bs, key, now, d.remaining + n);
      OneKeyAfter(p, bs, key, now, n);
    } else {
      OneKeyLeast(p, bs, key, now, d.remaining);
      OneKeyLongest(p, bs, key, now, n, d.retryAfterMs);
      OneKeyAfter(p, bs, key, now, 0);
    }
  }

  /** And the other way round: the single-key result is the outcome of the one-key request. */
  lemma OneKeyOutcomeHolds(p: Policy, maxKeys: nat, bs: Buckets, key: Id, now: U64, n: U64)
    requires PolicyOk(p) && KeyOk(key) && 0 < n <= p.capacity
    requires |bs| + |{key} - bs.Keys| <= maxKeys
    ensures var (d, bs') := AcquireOne(p, maxKeys, bs, key, now, n); ManyOutcome(p, bs, {key}, now, n, d, bs')
  {
    OneKeyShape(p, maxKeys, bs, key, now, n);
    OneKeyBalance(p, bs, key, now, n);
    assert key in {key};
    hide Refilled, RetryAfter, AfterMany, IsLeastBalance, IsLongestRetry, AcquireOne;
    assert Covers(p, bs, {key}, now, n) <==> n <= Refilled(p, bs, key, now).tokens;
    hide Covers, Debited;
    OneKeyAfter(p, bs, key, now, n);
    OneKeyAfter(p, bs, key, now, 0);
  }

  lemma OneKeyBalance(p: Policy, bs: Buckets, key: Id, now: U64, n: U64)
    requires PolicyOk(p)
    ensures var r := Refilled(p, bs, key, now);
            IsLeastBalance(p, bs, {key}, now, r.tokens)
            && (r.tokens < n ==> IsLongestRetry(p, bs, {key}, now, n, RetryAfter(p, n - r.tokens)))
  {
    hide Refill, RetryAfter;
    assert key in {key};
    var r := Refilled(p, bs, key, now);
    if r.tokens < n { assert Shortfall(p, bs, key, now, n) == n - r.tokens; }
  }

  /** A one-key multi request is the single-key request, in decision and in state, on every exit. */
  lemma OneKeyAgrees(p: Policy, maxKeys: nat, bs: Buckets, key: Id, now: U64, n: U64, d: Decision, bs': Buckets)
    requires PolicyOk(p) && |bs| <= maxKeys
    ensures ManyStep(p, maxKeys, bs, [key], now, n, d, bs') <==> (d, bs') == AcquireOne(p, maxKeys, bs, key, now, n)
  {
    hide ManyOutcome, Acquire;
    assert KeySet([key]) == {key};
    assert [key][0] == key;
    OneKeyRoom(bs, key);
    if KeyOk(key) && 0 < n <= p.capacity && |bs| + |{key} - bs.Keys| <= maxKeys {
      OneKeyOutcomeHolds(p, maxKeys, bs, key, now, n);
      if ManyOutcome(p, bs, {key}, now, n, d, bs') { OneKeyOutcome(p, maxKeys, bs, key, now, n, d, bs'); }
    }
  }

  /** All or nothing, told per bucket: a denied request leaves every named bucket as a refill
      would, a granted one takes exactly the cost from each. */
  lemma AllOrNothing(p: Policy, bs: Buckets, keys: set<Id>, now: U64, n: U64, d: Decision, bs': Buckets, k: Id)
    requires PolicyOk(p) && ManyOutcome(p, bs, keys, now, n, d, bs')
    ensures k in keys ==> k in bs' && bs'[k].stamp == Refilled(p, bs, k, now).stamp
    ensures k in keys ==> bs'[k].tokens + (if d.allowed then n else 0) == Refilled(p, bs, k, now).tokens
    ensures k !in keys ==> (k in bs' <==> k in bs) && (k in bs ==> bs'[k] == bs[k])
  {
    hide Refill, RetryAfter;
  }

  // ----- The bound over every run of a keyed limiter -----

  /** A request of either kind with what it returned and left behind. */
  datatype Call =
    | One(key: Id, now: U64, n: U64, decision: Decision, after: Buckets)
    | Many(keys: seq<Id>, now: U64, n: U64, decision: Decision, after: Buckets)
  {
    predicate Names(k: Id) { if One? then k == key else k in keys }
  }

  ghost predicate CallStep(p: Policy, maxKeys: nat, bs: Buckets, c: Call)
    requires PolicyOk(p)
  {
    match c
    case One(key, now, n, d, bs') => (d, bs') == AcquireOne(p, maxKeys, bs, key, now, n)
    case Many(keys, now, n, d, bs') => ManyStep(p, maxKeys, bs, keys, now, n, d, bs')
  }

  /** A run of requests of both kinds, each starting from the map the last one left. */
  ghost predicate KeyedRun(p: Policy, maxKeys: nat, bs: Buckets, calls: seq<Call>)
    requires PolicyOk(p)
    decreases |calls|
  {
    calls != [] ==> CallStep(p, maxKeys, bs, calls[0]) && KeyedRun(p, maxKeys, calls[0].after, calls[1..])
  }

  /** What granted requests naming `k` cost in all. */
  function Charged(calls: seq<Call>, k: Id): nat {
    if calls == [] then 0
    else (if calls[0].decision.allowed && calls[0].Names(k) then calls[0].n else 0) + Charged(calls[1..], k)
  }

  lemma RefillIsCovered(p: Policy, b: Bucket, now: U64, debit: nat)
    requires debit <= Refill(p, b, now).tokens
    ensures StepCovered(p.rate, b, now, debit, Debited(Refill(p, b, now), debit))
  {
  }

  lemma StandingStillIsCovered(rate: nat, b: Bucket, now: U64)
    ensures StepCovered(rate, b, now, 0, b)
  {
  }

  lemma OutcomeIsCovered(p: Policy, bs: Buckets, keys: set<Id>, now: U64, n: U64, d: Decision, bs': Buckets, k: Id)
    requires PolicyOk(p) && ManyOutcome(p, bs, keys, now, n, d, bs')
    ensures StepCovered(p.rate, BucketOf(p, bs, k), now, if d.allowed && k in keys then n else 0, BucketOf(p, bs', k))
  {
    hide Refill, RetryAfter, IsLeastBalance, IsLongestRetry, Earned, StepCovered;
    var b := BucketOf(p, bs, k);
    if k in keys {
      var debit := if d.allowed then n else 0;
      assert bs'[k] == Debited(Refill(p, b, now), debit);
      RefillIsCovered(p, b, now, debit);
    } else {
      StandingStillIsCovered(p.rate, b, now);
    }
  }

  lemma ManyIsCovered(p: Policy, maxKeys: nat, bs: Buckets, c: Call, k: Id)
    requires PolicyOk(p) && c.Many? && CallStep(p, maxKeys, bs, c)
    ensures var taken := if c.decision.allowed && k in c.keys then c.n else 0;
            StepCovered(p.rate, BucketOf(p, bs, k), c.now, taken, BucketOf(p, c.after, k))
  {
    hide ManyOutcome, StepCovered, BucketOf;
    var keys := KeySet(c.keys);
    assert k in c.keys <==> k in keys;
    StandingStillIsCovered(p.rate, BucketOf(p, bs, k), c.now);
    if ManyOutcome(p, bs, keys, c.now, c.n, c.decision, c.after) {
      OutcomeIsCovered(p, bs, keys, c.now, c.n, c.decision, c.after, k);
    }
  }

  lemma OneIsCovered(p: Policy, maxKeys: nat, bs: Buckets, c: Call, k: Id)
    requires PolicyOk(p) && c.One? && CallStep(p, maxKeys, bs, c)
    ensures var taken := if c.decision.allowed && k == c.key then c.n else 0;
            StepCovered(p.rate, BucketOf(p, bs, k), c.now, taken, BucketOf(p, c.after, k))
  {
    AcquireIsCovered(p, BucketOf(p, bs, c.key), c.now, c.n);
    hide Acquire;
  }

  /** Over every run of a keyed limiter, whatever the kinds of request, keys, costs and timestamps,
      no key is charged more than its bucket held plus what the rate earned from its stamp to the
      latest timestamp. */
  lemma {:induction false} EveryKeyIsBounded(p: Policy, maxKeys: nat, bs: Buckets, calls: seq<Call>, k: Id, latest: nat)
    requires PolicyOk(p) && KeyedRun(p, maxKeys, bs, calls)
    requires BucketOf(p, bs, k).stamp <= latest && forall i :: 0 <= i < |calls| ==> calls[i].now <= latest
    ensures Charged(calls, k) <= BucketOf(p, bs, k).tokens + Earned(p.rate, latest - BucketOf(p, bs, k).stamp)
    decreases |calls|
  {
    hide CallStep, Earned, StepCovered, BucketOf;
    if calls != [] {
      var c := calls[0];
      var b, b', rest := BucketOf(p, bs, k), BucketOf(p, c.after, k), Charged(calls[1..], k);
      if c.One? { OneIsCovered(p, maxKeys, bs, c, k); } else { ManyIsCovered(p, maxKeys, bs, c, k); }
      var taken := if c.decision.allowed && c.Names(k) then c.n else 0;
      StampStays(p.rate, b, c.now, taken, b', latest);
      EveryKeyIsBounded(p, maxKeys, c.after, calls[1..], k, latest);
      BoundExtends(p.rate, b, c.now, taken, b', rest, latest);
      assert Charged(calls, k) == taken + rest;
    }
  }
}

/** The token bucket: refills in whole tokens, forgetting the remainder. Time is an input. */
module RateLimiter {
  import opened Basics

  datatype Bucket = Bucket(tokens: nat, capacity: nat, rate: nat, last: nat)

  function NewBucket(capacity: nat, rate: nat, now: nat): (r: Bucket) {
    Bucket(capacity, capacity, rate, now)
  }

  function Added(b: Bucket, now: nat): (r: nat) {
    if now <= b.last then 0 else ((now - b.last) * b.rate) / 1000
  }

  function Refill(b: Bucket, now: nat): (r: Bucket) {
    if now <= b.last then b
    else b.(tokens := Min(b.tokens + Added(b, now), b.capacity), last := now)
  }

  /** What a poll leaves behind and whether it was granted. */
  function Poll(b: Bucket, cost: nat, now: nat): (r: (Bucket, bool)) {
    var f := Refill(b, now);
    if f.tokens >= cost then (f.(tokens := f.tokens - cost), true) else (f, false)
  }

  /** A poll in numbers: the tokens of the time passed since the last refill are added,
      rounded down and capped; a poll those cover is granted and pays, another does not. */
  lemma PollIsExact(b: Bucket, cost: nat, now: nat)
    ensures var (r, ok) := Poll(b, cost, now);
            var full := if now > b.last then Min(b.tokens + (now - b.last) * b.rate / 1000, b.capacity) else b.tokens;
            && (ok <==> cost <= full)
            && r.tokens + (if ok then cost else 0) == full
            && r.last == Max(b.last, now) && r.capacity == b.capacity && r.rate == b.rate
  {
  }

  datatype Request = Request(cost: nat, now: nat)

  function Run(b: Bucket, rs: seq<Request>): (r: Bucket)
    decreases |rs|
  {
    if rs == [] then b else Run(Poll(b, rs[0].cost, rs[0].now).0, rs[1..])
  }

  /** Tokens granted along a run. */
  function Granted(b: Bucket, rs: seq<Request>): (r: nat)
    decreases |rs|
  {
    if rs == [] then 0
    else
      var (b', ok) := Poll(b, rs[0].cost, rs[0].now);
      (if ok then rs[0].cost else 0) + Granted(b', rs[1..])
  }

  /** The number of polls at which time had moved on. */
  function Refills(b: Bucket, rs: seq<Request>): (r: nat)
    decreases |rs|
  {
    if rs == [] then 0
    else (if rs[0].now > b.last then 1 else 0) + Refills(Poll(b, rs[0].cost, rs[0].now).0, rs[1..])
  }

  /** The capacity never cuts a refill short. */
  predicate NeverCapped(b: Bucket, rs: seq<Request>)
    decreases |rs|
  {
    rs == [] || (b.tokens + Added(b, rs[0].now) <= b.capacity && NeverCapped(Poll(b, rs[0].cost, rs[0].now).0, rs[1..]))
  }

  lemma Floor(a: nat)
    ensures 1000 * (a / 1000) <= a < 1000 * (a / 1000) + 1000
  {
  }

  lemma RefillBound(b: Bucket, now: nat)
    ensures var f := Refill(b, now);
            && f.last >= b.last && f.rate == b.rate && f.capacity == b.capacity
            && 1000 * (f.tokens - b.tokens) <= (f.last - b.last) * b.rate
            && (b.tokens + Added(b, now) <= b.capacity ==>
                  1000 * (f.tokens - b.tokens) + 1000 >= (f.last - b.last) * b.rate
                  && (f.last > b.last ==> 1000 * (f.tokens - b.tokens) + 1000 > (f.last - b.last) * b.rate)
                  && (f.last == b.last ==> f.tokens == b.tokens))
  {
    if now > b.last {
      Floor((now - b.last) * b.rate);
    }
  }

  /** Never more than the rate allows: granted + tokens - initial tokens, in
      thousandths, is at most rate times elapsed; and while the capacity does not cut in,
      at most one token per refill is missing from that. */
  lemma {:induction false} RateBounds(b: Bucket, rs: seq<Request>)
    ensures var e := Run(b, rs);
            && e.last >= b.last
            && 1000 * (Granted(b, rs) + e.tokens - b.tokens) <= (e.last - b.last) * b.rate
            && (NeverCapped(b, rs) ==>
                  (e.last - b.last) * b.rate <= 1000 * (Granted(b, rs) + e.tokens - b.tokens) + 1000 * Refills(b, rs))
            && (NeverCapped(b, rs) && Refills(b, rs) > 0 ==>
                  (e.last - b.last) * b.rate < 1000 * (Granted(b, rs) + e.tokens - b.tokens) + 1000 * Refills(b, rs))
    decreases |rs|
  {
    if rs != [] {
      var b' := Poll(b, rs[0].cost, rs[0].now).0;
      RefillBound(b, rs[0].now);
      RateBounds(b', rs[1..]);
      var e := Run(b, rs);
      assert (e.last - b'.last) * b.rate + (b'.last - b.last) * b.rate == (e.last - b.last) * b.rate;
    }
  }

  /** Each poll comes at most d after the one before. */
  predicate Within(last: nat, rs: seq<Request>, d: nat)
    decreases |rs|
  {
    rs == [] || (last <= rs[0].now <= last + d && Within(rs[0].now, rs[1..], d))
  }

  /** Polling faster than a token accrues starves the bucket: every refill rounds down
      to nothing and still moves the clock. */
  lemma {:induction false} FastPollsNeverRefill(b: Bucket, rs: seq<Request>, d: nat)
    requires d * b.rate < 1000 && Within(b.last, rs, d) && b.tokens <= b.capacity
    ensures Granted(b, rs) + Run(b, rs).tokens == b.tokens
    decreases |rs|
  {
    if rs != [] {
      var r := rs[0];
      assert (r.now - b.last) * b.rate <= d * b.rate;
      assert Added(b, r.now) == 0;
      FastPollsNeverRefill(Poll(b, r.cost, r.now).0, rs[1..], d);
    }
  }

  /** acquire_with_wait sleeps 1000 / max(tps, 1) ms between polls. */
  function WaitMs(tps: nat): (r: nat) {
    1000 / (if tps == 0 then 1 else tps)
  }

  /** Waiting exactly that long refills a token if and only if tps divides 1000 (and is
      not 0); otherwise an empty bucket refuses for ever. */
  lemma WaitStarves(tps: nat)
    ensures WaitMs(tps) * tps < 1000 <==> tps == 0 || 1000 % tps != 0
  {
    if tps > 0 {
      assert 1000 == tps * (1000 / tps) + 1000 % tps;
    }
  }

  lemma EmptyBucketStarves(tps: nat, capacity: nat, rs: seq<Request>, start: nat)
    requires tps == 0 || 1000 % tps != 0
    requires Within(start, rs, WaitMs(tps)) && forall i :: 0 <= i < |rs| ==> rs[i].cost == 1
    ensures Granted(Bucket(0, capacity, tps, start), rs) == 0
  {
    WaitStarves(tps);
    FastPollsNeverRefill(Bucket(0, capacity, tps, start), rs, WaitMs(tps));
  }

  /** One poll of an empty bucket, d ms after its last refill: granted if and only if d
      exceeds the waiting interval, or equals it and tps divides 1000. So a sleep that
      lasts no longer than asked starves, and one that overshoots by a millisecond does not. */
  lemma PollGrantsIff(tps: nat, capacity: nat, start: nat, d: nat)
    requires capacity >= 1
    ensures Poll(Bucket(0, capacity, tps, start), 1, start + d).1
            <==> tps > 0 && (d > WaitMs(tps) || (d == WaitMs(tps) && 1000 % tps == 0))
  {
    EmptyPollGrants(tps, capacity, start, d);
    if tps > 0 {
      ReachesThousand(tps, d);
    }
  }

  lemma EmptyPollGrants(tps: nat, capacity: nat, start: nat, d: nat)
    requires capacity >= 1
    ensures Poll(Bucket(0, capacity, tps, start), 1, start + d).1 <==> d * tps >= 1000
  {
    assert d > 0 ==> Added(Bucket(0, capacity, tps, start), start + d) == (d * tps) / 1000;
  }

  lemma ReachesThousand(tps: nat, d: nat)
    requires tps > 0
    ensures d * tps >= 1000 <==> d > 1000 / tps || (d == 1000 / tps && 1000 % tps == 0)
  {
    var q := 1000 / tps;
    assert 1000 == q * tps + 1000 % tps;
    if d > q {
      Scaled(q + 1, d, tps);
      OneMore(q, tps);
    } else if d < q {
      Scaled(d + 1, q, tps);
      OneMore(d, tps);
    }
  }

  lemma OneMore(x: nat, n: nat)
    ensures (x + 1) * n == x * n + n
  {
  }

  class TokenBucket {
    var tokens: nat
    const capacity: nat
    const refillRate: nat
    var lastRefill: nat

    ghost function View(): Bucket
      reads this
    {
      Bucket(tokens, capacity, refillRate, lastRefill)
    }

    constructor (capacity: nat, rate: nat, now: nat)
      ensures View() == NewBucket(capacity, rate, now)
    {
      this.capacity, refillRate := capacity, rate;
      tokens, lastRefill := capacity, now;
    }

    method RefillNow(now: nat)
      modifies this
      ensures View() == Refill(old(View()), now)
    {
      var elapsed := if now <= lastRefill then 0 else now - lastRefill;
      if elapsed > 0 {
        var added := (elapsed * refillRate) / 1000;
        tokens := Min(tokens + added, capacity);
        lastRefill := now;
      }
    }

    method TryAcquire(cost: nat, now: nat) returns (ok: bool)
      modifies this
      ensures (View(), ok) == Poll(old(View()), cost, now)
      ensures var full := if now > old(lastRefill)
                          then Min(old(tokens) + (now - old(lastRefill)) * refillRate / 1000, capacity)
                          else old(tokens);
              (ok <==> cost <= full) && tokens + (if ok then cost else 0) == full
      ensures lastRefill == Max(old(lastRefill), now)
    {
      PollIsExact(View(), cost, now);
      RefillNow(now);
      ok := tokens >= cost;
      if ok {
        tokens := tokens - cost;
      }
    }
  }

  // ----- one bucket per wallet and a global one

  type WalletId = string

  datatype Limiter = Limiter(
    tps: nat, burst: nat, backoffFactor: nat, maxBackoffMs: nat,
    buckets: map<WalletId, Bucket>, global: Bucket, backoff: map<WalletId, nat>)

  function BucketOf(l: Limiter, id: WalletId, now: nat): (r: Bucket) {
    if id in l.buckets then l.buckets[id] else NewBucket(l.tps * l.burst, l.tps, now)
  }

  /** A back-off of 0 is not slept on, and stays stored. */
  function Rested(backoff: map<WalletId, nat>, id: WalletId): (r: map<WalletId, nat>) {
    if id in backoff && backoff[id] > 0 then backoff - {id} else backoff
  }

  /** acquire, at the time it wakes from any back-off: the global bucket is only asked
      when the wallet's own grants, and the wallet's token is spent either way. */
  function AcquireSlot(l: Limiter, id: WalletId, now: nat): (r: (Limiter, bool)) {
    var rested := l.(backoff := Rested(l.backoff, id));
    var (mine, ok) := Poll(BucketOf(l, id, now), 1, now);
    if !ok then (rested.(buckets := l.buckets[id := mine]), false)
    else
      var (shared, granted) := Poll(l.global, 1, now);
      (rested.(buckets := l.buckets[id := mine], global := shared), granted)
  }

  /** A request is granted if and only if both buckets grant it; the wallet's bucket,
      new and full if it had none, is polled in any case, the global one only after it;
      no other wallet is touched, and a back-off slept on is gone. */
  lemma AcquireIsExact(l: Limiter, id: WalletId, now: nat)
    ensures var (r, ok) := AcquireSlot(l, id, now);
            var mine := if id in l.buckets then l.buckets[id] else Bucket(l.tps * l.burst, l.tps * l.burst, l.tps, now);
            && (ok <==> Poll(mine, 1, now).1 && Poll(l.global, 1, now).1)
            && id in r.buckets && r.buckets[id] == Poll(mine, 1, now).0
            && r.global == (if Poll(mine, 1, now).1 then Poll(l.global, 1, now).0 else l.global)
            && (forall other :: other != id ==>
                  && (other in r.buckets <==> other in l.buckets)
                  && (other in l.buckets ==> r.buckets[other] == l.buckets[other])
                  && (other in r.backoff <==> other in l.backoff)
                  && (other in l.backoff ==> r.backoff[other] == l.backoff[other]))
            && (id in r.backoff <==> id in l.backoff && l.backoff[id] == 0)
            && (id in r.backoff ==> r.backoff[id] == 0)
            && r == l.(buckets := r.buckets, global := r.global, backoff := r.backoff)
  {
  }

  datatype Ask = Ask(id: WalletId, now: nat)

  function Serve(l: Limiter, asks: seq<Ask>): (r: Limiter)
    decreases |asks|
  {
    if asks == [] then l else Serve(AcquireSlot(l, asks[0].id, asks[0].now).0, asks[1..])
  }

  function Served(l: Limiter, asks: seq<Ask>): (r: nat)
    decreases |asks|
  {
    if asks == [] then 0
    else
      var (l', ok) := AcquireSlot(l, asks[0].id, asks[0].now);
      (if ok then 1 else 0) + Served(l', asks[1..])
  }

  /** The requests that get as far as the global bucket. */
  function Reaching(l: Limiter, asks: seq<Ask>): (r: seq<Request>)
    decreases |asks|
  {
    if asks == [] then []
    else
      var a := asks[0];
      (if Poll(BucketOf(l, a.id, a.now), 1, a.now).1 then [Request(1, a.now)] else [])
      + Reaching(AcquireSlot(l, a.id, a.now).0, asks[1..])
  }

  lemma {:induction false} ServedByGlobal(l: Limiter, asks: seq<Ask>)
    ensures Served(l, asks) == Granted(l.global, Reaching(l, asks))
    ensures Serve(l, asks).global == Run(l.global, Reaching(l, asks))
    decreases |asks|
  {
    if asks != [] {
      var a, l' := asks[0], AcquireSlot(l, asks[0].id, asks[0].now).0;
      ServedByGlobal(l', asks[1..]);
      var rest := Reaching(l', asks[1..]);
      if Poll(BucketOf(l, a.id, a.now), 1, a.now).1 {
        assert ([Request(1, a.now)] + rest)[1..] == rest;
      } else {
        assert [] + rest == rest;
      }
    }
  }

  /** However many wallets ask, together they never get more than the global rate. */
  lemma GlobalRateHolds(l: Limiter, asks: seq<Ask>)
    ensures var e := Serve(l, asks).global;
            1000 * (Served(l, asks) + e.tokens - l.global.tokens) <= (e.last - l.global.last) * l.global.rate
  {
    ServedByGlobal(l, asks);
    RateBounds(l.global, Reaching(l, asks));
  }

  /** A bucket that covers `n` more requests, and is not over its capacity. */
  predicate Covers(b: Bucket, n: nat) {
    n <= b.tokens <= b.capacity
  }

  predicate AllCover(l: Limiter, n: nat) {
    Covers(l.global, n) && n <= l.tps * l.burst && forall id :: id in l.buckets ==> Covers(l.buckets[id], n)
  }

  lemma PollCovers(b: Bucket, now: nat, n: nat)
    requires Covers(b, n + 1)
    ensures Poll(b, 1, now).1 && Covers(Poll(b, 1, now).0, n)
  {
  }

  lemma {:induction false} CoveredIsServed(l: Limiter, asks: seq<Ask>)
    requires AllCover(l, |asks|)
    ensures Served(l, asks) == |asks|
    decreases |asks|
  {
    if asks != [] {
      var a, n := asks[0], |asks| - 1;
      PollCovers(BucketOf(l, a.id, a.now), a.now, n);
      PollCovers(l.global, a.now, n);
      CoveredIsServed(AcquireSlot(l, a.id, a.now).0, asks[1..]);
    }
  }

  function NewLimiter(tps: nat, burst: nat, factor: nat, max: nat, now: nat): (r: Limiter) {
    Limiter(tps, burst, factor, max, map[], NewBucket(tps * burst, tps, now), map[])
  }

  /** A new limiter grants its burst in full: the first tps * burst requests, from whatever
      wallets and at whatever times. */
  lemma BurstIsGranted(tps: nat, burst: nat, factor: nat, max: nat, now: nat, asks: seq<Ask>)
    requires |asks| <= tps * burst
    ensures Served(NewLimiter(tps, burst, factor, max, now), asks) == |asks|
  {
    CoveredIsServed(NewLimiter(tps, burst, factor, max, now), asks);
  }

  // ----- back-off

  /** on_429: the back-off a wallet had (100 if none), multiplied and capped. */
  function Backoff(l: Limiter, current: nat): (r: nat) {
    Min(Product(current, l.backoffFactor), l.maxBackoffMs)
  }

  function On429(l: Limiter, id: WalletId): (r: Limiter) {
    l.(backoff := l.backoff[id := Backoff(l, if id in l.backoff then l.backoff[id] else 100)])
  }

  function On429Times(l: Limiter, id: WalletId, k: nat): (r: Limiter) {
    if k == 0 then l else On429(On429Times(l, id, k - 1), id)
  }

  function Power(b: nat, k: nat): (r: nat) {
    if k == 0 then 1 else Product(Power(b, k - 1), b)
  }

  /** k rate-limit answers in a row: exponential from 100 ms, capped. */
  lemma {:induction false} BackoffIsExponential(l: Limiter, id: WalletId, k: nat)
    requires id !in l.backoff && k >= 1
    ensures On429Times(l, id, k) ==
            l.(backoff := l.backoff[id := Min(Product(100, Power(l.backoffFactor, k)), l.maxBackoffMs)])
  {
    var f, max := l.backoffFactor, l.maxBackoffMs;
    if k == 1 {
      assert On429Times(l, id, 0) == l;
      assert Power(f, 1) == Product(Power(f, 0), f);
    } else {
      BackoffIsExponential(l, id, k - 1);
      CappedProduct(Product(100, Power(f, k - 1)), f, max);
      Associates(100, Power(f, k - 1), f);
    }
  }

  lemma Associates(x: nat, y: nat, z: nat)
    ensures Product(Product(x, y), z) == Product(x, Product(y, z))
  {
    assert (x * y) * z == x * (y * z);
  }

  lemma CappedProduct(x: nat, f: nat, max: nat)
    ensures Min(Product(Min(x, max), f), max) == Min(Product(x, f), max)
  {
    if x > max && f >= 1 {
      Larger(max, f);
      Larger(x, f);
    }
  }

  lemma {:induction false} Larger(x: nat, f: nat)
    requires f >= 1
    ensures Product(x, f) >= x
  {
    if f > 1 {
      Larger(x, f - 1);
      assert x * f == x * (f - 1) + x;
    }
  }

  class WalletLimiter {
    const tps: nat
    const burst: nat
    const backoffFactor: nat
    const maxBackoffMs: nat
    var buckets: map<WalletId, Bucket>
    var globalBucket: Bucket
    var backoffMs: map<WalletId, nat>

    ghost function View(): Limiter
      reads this
    {
      Limiter(tps, burst, backoffFactor, maxBackoffMs, buckets, globalBucket, backoffMs)
    }

    constructor (tps: nat, burst: nat, factor: nat, max: nat, now: nat)
      ensures View() == NewLimiter(tps, burst, factor, max, now)
    {
      this.tps, this.burst, backoffFactor, maxBackoffMs := tps, burst, factor, max;
      buckets, globalBucket, backoffMs := map[], NewBucket(tps * burst, tps, now), map[];
    }

    method Acquire(id: WalletId, now: nat) returns (ok: bool)
      modifies this
      ensures (View(), ok) == AcquireSlot(old(View()), id, now)
    {
      if id in backoffMs && backoffMs[id] > 0 {
        backoffMs := backoffMs - {id};
      }
      var mine := if id in buckets then buckets[id] else NewBucket(tps * burst, tps, now);
      var (left, granted) := Poll(mine, 1, now);
      buckets := buckets[id := left];
      if !granted {
        return false;
      }
      var (shared, all) := Poll(globalBucket, 1, now);
      globalBucket := shared;
      ok := all;
    }

    method RateLimited(id: WalletId)
      modifies this`backoffMs
      ensures View() == On429(old(View()), id)
    {
      var current := if id in backoffMs then backoffMs[id] else 100;
      backoffMs := backoffMs[id := Min(Product(current, backoffFactor), maxBackoffMs)];
    }

    method Succeeded(id: WalletId)
      modifies this`backoffMs
      ensures View() == old(View()).(backoff := old(View()).backoff - {id})
    {
      backoffMs := backoffMs - {id};
    }
  }
}

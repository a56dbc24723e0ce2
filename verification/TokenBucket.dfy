/** The token bucket of shared/evm/rpc-resilience.ts over real-valued tokens and a whole-millisecond clock. */
module TokenBucket {
  import opened Common

  /** Slack below one full token at which a request is still admitted. */
  const SLACK := 0.000000001

  datatype Limit = Unlimited | Limited(rate: real, burst: int)

  predicate ValidLimit(l: Limit) {
    l.Limited? ==> l.rate > 0.0 && 1 <= l.burst <= MAX_SAFE_INTEGER
  }

  datatype Bucket = Bucket(limit: Limit, tokens: real, last: int)

  ghost predicate Valid(b: Bucket) {
    && ValidLimit(b.limit)
    && (b.limit.Limited? ==> 0.0 <= b.tokens <= b.limit.burst as real)
  }

  function Full(limit: Limit, now: int): Bucket {
    Bucket(limit, if limit.Limited? then limit.burst as real else 0.0, now)
  }

  function MinReal(a: real, b: real): real { if a < b then a else b }

  function Refill(b: Bucket, now: int): Bucket {
    if b.limit.Unlimited? || now - b.last <= 0 then b
    else
      var refill := (now - b.last) as real / 1000.0 * b.limit.rate;
      b.(tokens := MinReal(b.limit.burst as real, b.tokens + refill), last := now)
  }

  /** The bucket admits a request at this clock reading. */
  predicate Ready(b: Bucket, now: int) {
    b.limit.Unlimited? || Refill(b, now).tokens >= 1.0 - SLACK
  }

  /** State after tryAcquire; a refused attempt still refills. */
  function TryAcquire(b: Bucket, now: int): Bucket {
    var r := Refill(b, now);
    if b.limit.Unlimited? || r.tokens < 1.0 - SLACK then r
    else r.(tokens := if r.tokens > 1.0 then r.tokens - 1.0 else 0.0)
  }

  function Ceil(x: real): int { -((-x).Floor) }

  function WaitMs(b: Bucket, now: int): int
    requires ValidLimit(b.limit)
  {
    if Ready(b, now) then 0
    else Max(1, Ceil((1.0 - Refill(b, now).tokens) / b.limit.rate * 1000.0))
  }

  // ---------------------------------------------------------------- refilling

  lemma RefillValid(b: Bucket, now: int)
    requires Valid(b)
    ensures Valid(Refill(b, now)) && Valid(TryAcquire(b, now))
  {
  }

  /** Reading a bucket twice at one clock reading is the same as reading it once. */
  lemma RefillIdempotent(b: Bucket, now: int)
    ensures Refill(Refill(b, now), now) == Refill(b, now)
  {
  }

  /** With an advancing clock, intermediate refills lose nothing: capping commutes with waiting. */
  lemma RefillComposes(b: Bucket, t: int, u: int)
    requires Valid(b) && t <= u
    ensures Refill(Refill(b, t), u) == Refill(b, u)
  {
    if b.limit.Limited? && b.last < t < u {
      var r := b.limit.rate;
      var x, y, z := (t - b.last) as real / 1000.0, (u - t) as real / 1000.0, (u - b.last) as real / 1000.0;
      assert x + y == z;
      assert x * r + y * r == z * r;
      assert y * r >= 0.0;
    }
  }

  lemma ReadyMonotone(b: Bucket, t: int, u: int)
    requires Valid(b) && t <= u && Ready(b, t)
    ensures Ready(b, u)
  {
    RefillComposes(b, t, u);
    RefillGrows(Refill(b, t), u);
  }

  lemma RefillGrows(b: Bucket, now: int)
    requires Valid(b)
    ensures Refill(b, now).tokens >= b.tokens && Refill(b, now).last >= b.last
  {
    if b.limit.Limited? && now > b.last {
      assert (now - b.last) as real / 1000.0 * b.limit.rate >= 0.0;
    }
  }

  // ---------------------------------------------------------------- waiting

  lemma TouchWait(b: Bucket, now: int)
    requires ValidLimit(b.limit)
    ensures WaitMs(Refill(b, now), now) == WaitMs(b, now) && Refill(b, now).limit == b.limit
  {
    RefillIdempotent(b, now);
  }

  lemma CeilBounds(x: real)
    ensures x <= Ceil(x) as real < x + 1.0
  {
  }

  /** `waitTimeMs` is sufficient, counted from the later of the clock and the bucket's last refill. */
  lemma WaitSufficient(b: Bucket, now: int, t: int)
    requires Valid(b) && t >= Max(now, b.last) + WaitMs(b, now)
    ensures Ready(b, t)
    ensures !Ready(b, now) ==> Refill(b, t).tokens >= 1.0
  {
    if Ready(b, now) {
      ReadyMonotone(b, now, t);
    } else {
      var from := Max(now, b.last);
      assert Refill(b, from) == Refill(b, now);
      LongWait(1.0 - Refill(b, now).tokens, b.limit.rate, t - from);
      RefillComposes(b, from, t);
    }
  }

  lemma LongWait(missing: real, rate: real, v: nat)
    requires missing > 0.0 && rate > 0.0 && v >= Max(1, Ceil(missing / rate * 1000.0))
    ensures v as real / 1000.0 * rate >= missing
  {
    var q, x := missing / rate, v as real / 1000.0;
    assert q * rate == missing;
    CeilBounds(q * 1000.0);
    assert x >= q;
    MulMonotone(q, x, rate);
  }

  lemma MulMonotone(a: real, b: real, c: real)
    requires a <= b && c >= 0.0
    ensures a * c <= b * c
  {
    assert (b - a) * c >= 0.0;
  }

  lemma BelowQuotient(a: real, q: real, c: real, product: real)
    requires a < q && c > 0.0 && q * c == product
    ensures a * c < product
  {
    assert (q - a) * c > 0.0;
  }

  /** A wait of v milliseconds pays in at most v milliseconds' worth, wherever the clock stands. */
  lemma RefillAtMost(b: Bucket, now: int, v: nat)
    requires Valid(b) && b.limit.Limited?
    ensures Refill(b, now + v).tokens <= Refill(b, now).tokens + v as real / 1000.0 * b.limit.rate
  {
    if now >= b.last {
      RefillComposes(b, now, now + v);
    } else if now + v > b.last {
      MulMonotone((now + v - b.last) as real / 1000.0, v as real / 1000.0, b.limit.rate);
    } else {
      MulMonotone(0.0, v as real / 1000.0, b.limit.rate);
    }
  }

  lemma ShortWait(missing: real, rate: real, v: nat)
    requires missing > 0.0 && rate > 0.0
    requires v < Max(1, Ceil(missing / rate * 1000.0))
    ensures v as real / 1000.0 * rate < missing
  {
    var q, x := missing / rate, v as real / 1000.0;
    assert q * rate == missing;
    assert q > 0.0;
    CeilBounds(q * 1000.0);
    assert x < q;
    BelowQuotient(x, q, rate, missing);
  }

  /** `waitTimeMs` is minimal: no shorter whole-millisecond wait reaches a full token. */
  lemma WaitMinimal(b: Bucket, now: int, v: nat)
    requires Valid(b) && v < WaitMs(b, now)
    ensures Refill(b, now + v).tokens < 1.0
  {
    ShortWait(1.0 - Refill(b, now).tokens, b.limit.rate, v);
    RefillAtMost(b, now, v);
  }

  /** Exactly when a refused bucket holds a full token again, for every clock, also one that stepped back. */
  lemma FullTokenExactly(b: Bucket, now: int, t: int)
    requires Valid(b) && !Ready(b, now) && t >= now
    ensures Refill(b, t).tokens >= 1.0 <==> t >= Max(now, b.last) + WaitMs(b, now)
  {
    var from := Max(now, b.last);
    if t >= from + WaitMs(b, now) {
      WaitSufficient(b, now, t);
    } else if t >= from {
      assert Refill(b, from) == Refill(b, now);
      ShortWait(1.0 - Refill(b, now).tokens, b.limit.rate, t - from);
      RefillAtMost(b, from, t - from);
    }
  }

  /** When the clock has stepped back behind the bucket, the wait it reports is not sufficient. */
  lemma WaitInsufficientAfterStepBack()
    ensures
      var b := Bucket(Limited(1.0, 1), 0.0, 5000);
      Valid(b) && WaitMs(b, 0) == 1000 && !Ready(b, 0 + WaitMs(b, 0))
  {
    var b := Bucket(Limited(1.0, 1), 0.0, 5000);
    assert (1.0 - Refill(b, 0).tokens) / 1.0 * 1000.0 == 1000.0;
    assert (-1000.0).Floor == -1000;
  }

  // ---------------------------------------------------------------- rate

  /** Tokens in hand minus everything the clock has paid in: spending is the only way it falls by a token. */
  ghost function Level(b: Bucket): real {
    if b.limit.Unlimited? then 0.0 else b.tokens - b.limit.rate * (b.last as real / 1000.0)
  }

  lemma RefillLevel(b: Bucket, now: int)
    requires Valid(b)
    ensures Level(Refill(b, now)) <= Level(b)
  {
    if b.limit.Limited? && now > b.last {
      var x, y := b.last as real / 1000.0, now as real / 1000.0;
      assert (now - b.last) as real / 1000.0 == y - x;
      assert (y - x) * b.limit.rate == b.limit.rate * y - b.limit.rate * x;
    }
  }

  /** Every admitted request costs the level at least one token less the slack. */
  lemma TakeLevel(b: Bucket, now: int)
    requires Valid(b) && Ready(b, now) && b.limit.Limited?
    ensures Level(TryAcquire(b, now)) <= Level(b) - (1.0 - SLACK)
  {
    RefillLevel(b, now);
  }

  /** Between two states of one bucket, the level drop is bounded by the burst plus the elapsed refill time. */
  lemma LevelDrop(b: Bucket, c: Bucket)
    requires Valid(b) && Valid(c) && b.limit == c.limit && b.limit.Limited?
    ensures Level(b) - Level(c) <= b.limit.burst as real + b.limit.rate * ((c.last - b.last) as real / 1000.0)
  {
    var x, y := b.last as real / 1000.0, c.last as real / 1000.0;
    var d := (c.last - b.last) as real / 1000.0;
    assert d == y - x;
    DropAlgebra(b.tokens, c.tokens, b.limit.burst as real, b.limit.rate, x, y);
    assert b.limit.rate * d == b.limit.rate * (y - x);
  }

  lemma DropAlgebra(t: real, u: real, burst: real, r: real, x: real, y: real)
    requires t <= burst && u >= 0.0
    ensures (t - r * x) - (u - r * y) <= burst + r * (y - x)
  {
  }
}

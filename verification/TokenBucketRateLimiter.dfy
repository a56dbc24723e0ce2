/** The rate limiter object of shared/evm/rpc-resilience.ts, updated in place. */
module TokenBucketRateLimiter {
  import opened Common
  import B = TokenBucket

  /** Construction fails exactly on a limit the source refuses. */
  method Create(config: B.Limit, now: int) returns (r: Result<RateLimiter>)
    ensures r.Ok? <==> config.Unlimited? || (config.rate > 0.0 && 1 <= config.burst <= 9007199254740991)
    ensures r.Ok? ==> fresh(r.value) && r.value.Value() == B.Full(config, now) && B.Valid(r.value.Value())
  {
    if !B.ValidLimit(config) { return Thrown; }
    var l := new RateLimiter(config, now);
    return Ok(l);
  }

  class RateLimiter {
    const config: B.Limit
    var tokens: real
    var lastRefillMs: int

    ghost function Value(): B.Bucket
      reads this
    {
      B.Bucket(config, tokens, lastRefillMs)
    }

    constructor (config: B.Limit, now: int)
      requires B.ValidLimit(config)
      ensures this.config == config && Value() == B.Full(config, now) && B.Valid(Value())
    {
      this.config := config;
      tokens := if config.Limited? then config.burst as real else 0.0;
      lastRefillMs := now;
    }

    method RefillTokens(now: int)
      modifies this
      ensures Value() == B.Refill(old(Value()), now)
    {
      if config.Unlimited? { return; }
      var elapsedMs := Max(0, now - lastRefillMs);
      if elapsedMs <= 0 { return; }
      var refill := elapsedMs as real / 1000.0 * config.rate;
      tokens := B.MinReal(config.burst as real, tokens + refill);
      lastRefillMs := now;
    }

    /** Consumes a token exactly when the bucket is ready at this reading. */
    method TryAcquire(now: int) returns (acquired: bool)
      modifies this
      ensures acquired == B.Ready(old(Value()), now)
      ensures Value() == B.TryAcquire(old(Value()), now)
    {
      if config.Unlimited? { return true; }
      RefillTokens(now);
      if tokens < 1.0 - B.SLACK { return false; }
      tokens := if tokens - 1.0 > 0.0 then tokens - 1.0 else 0.0;
      return true;
    }

    method WaitTimeMs(now: int) returns (wait: int)
      requires B.ValidLimit(config)
      modifies this
      ensures wait == B.WaitMs(old(Value()), now)
      ensures Value() == B.Refill(old(Value()), now)
    {
      if config.Unlimited? { return 0; }
      RefillTokens(now);
      B.RefillIdempotent(old(Value()), now);
      if tokens >= 1.0 - B.SLACK { return 0; }
      wait := Max(1, B.Ceil((1.0 - tokens) / config.rate * 1000.0));
    }

    /** The blocking loop: each sleep lasts the reported wait plus whatever the timer is late by. It ends for
        every clock, with one sleep when the clock was not behind the bucket, and takes exactly one token. */
    method AcquireInternal(now: int, late: int -> nat) returns (waitedMs: int, end: int)
      requires B.Valid(Value())
      modifies this
      ensures end >= now + waitedMs
      ensures B.Ready(old(Value()), end) && Value() == B.TryAcquire(old(Value()), end)
      ensures B.Ready(old(Value()), now) ==> waitedMs == 0 && end == now
      ensures old(lastRefillMs) <= now ==> waitedMs == B.WaitMs(old(Value()), now)
    {
      ghost var b := Value();
      ghost var due := Max(now, b.last) + B.WaitMs(b, now);
      waitedMs, end := 0, now;
      var acquired := TryAcquire(end);
      while !acquired
        invariant end >= now + waitedMs >= now
        invariant acquired == B.Ready(b, end)
        invariant Value() == B.TryAcquire(b, end)
        invariant end == now ==> waitedMs == 0
        invariant end > now ==> !B.Ready(b, now)
        invariant b.last <= now && end > now ==> acquired && waitedMs == B.WaitMs(b, now)
        decreases if acquired then 0 else due - end + 1
      {
        if end >= due { B.WaitSufficient(b, now, end); }
        B.RefillIdempotent(b, end);
        var waitMs := WaitTimeMs(end);
        waitedMs := waitedMs + waitMs;
        ghost var before := end;
        end := end + waitMs + late(end);
        B.RefillComposes(b, before, end);
        if b.last <= now { B.WaitSufficient(b, now, end); }
        acquired := TryAcquire(end);
      }
    }
  }
}

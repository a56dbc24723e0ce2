/** What becomes of a limited gap allocation's own allowance. */
module RpcBudgetAllowance {
  import opened Common
  import opened TokenBucket
  import opened RpcBudgetModel
  import opened RpcBudgetSafety
  import opened RpcBudgetOrder
  import opened RpcBudgetRate
  import opened RpcBudgetQuiescence
  import opened RpcBudgetReserve

  /** Drains at advancing readings, and no stop. */
  ghost predicate Advancing(s: State, t: int, steps: seq<Step>)
    requires Inv(s)
    decreases |steps|
  {
    steps == [] ||
    (ApplyKeeps(s, steps[0]);
     var v, u := Apply(s, steps[0]), TimeOf(steps[0], 0);
     if Drains(s, steps[0]) then t <= u && Advancing(v, u, steps[1..])
     else !steps[0].Stop? && Advancing(v, t, steps[1..]))
  }

  /** What the burst of one cuts off the endpoint's gap bucket in the window. */
  ghost function GapLostIn(s: State, t: int, steps: seq<Step>, k: Key): real
    requires Inv(s)
    decreases |steps|
  {
    if steps == [] || !Shared(s, k) then 0.0
    else
      ApplyKeeps(s, steps[0]);
      if Drains(s, steps[0])
      then Lost(s.endpoints[k].gap.value, t, TimeOf(steps[0], 0))
           + GapLostIn(Apply(s, steps[0]), TimeOf(steps[0], 0), steps[1..], k)
      else GapLostIn(Apply(s, steps[0]), t, steps[1..], k)
  }

  ghost predicate Running(s: State, k: Key, t: int) { Inv(s) && !s.stopped && Shared(s, k) && NotBehind(s, t) }

  /** Between (s, t) and (v, u) the gap level falls by the gap grants, up to the slack, and by what was lost. */
  ghost predicate GapAccount(s: State, t: int, v: State, u: int, k: Key, lost: real)
    requires Shared(s, k)
  {
    && Shared(v, k) && v.endpoints[k].gap.value.limit == s.endpoints[k].gap.value.limit
    && var n := (GapGrants(v.settled, k) - GapGrants(s.settled, k)) as real;
       n * (1.0 - SLACK)
       <= Level(Refill(s.endpoints[k].gap.value, t)) - Level(Refill(v.endpoints[k].gap.value, u)) - lost <= n
  }

  lemma StepGapAccount(s: State, t: int, step: Step, k: Key)
    requires Running(s, k, t) && Drains(s, step) && t <= TimeOf(step, 0) && Sane(s)
    ensures var u := TimeOf(step, 0);
            && GapAccount(s, t, Apply(s, step), u, k, Lost(s.endpoints[k].gap.value, t, u))
            && Running(Apply(s, step), k, u)
  {
    hide Inv, Drain, Grants, GapGrants, Level, Refill, Valid, Apply, Before, Drains, Sane, TimeOf;
    var u, b := TimeOf(step, 0), Before(s, step);
    BeforeKeeps(s, step);
    BeforeGrants(s, step, k);
    BeforeDrain(s, step);
    assert Shared(b, k);
    DrainLedger(b, k, u);
    DrainArms(b, u);
    assert NotBehind(b, u);
  }

  lemma GapAccountTrans(s: State, t: int, v: State, u: int, w: State, x: int, k: Key, a: real, b: real)
    requires Shared(s, k) && GapAccount(s, t, v, u, k, a) && GapAccount(v, u, w, x, k, b)
    ensures GapAccount(s, t, w, x, k, a + b)
  {
    hide Level, Refill, GapGrants, Valid;
  }

  lemma GapAccountSelf(s: State, t: int, k: Key)
    requires Shared(s, k)
    ensures GapAccount(s, t, s, t, k, 0.0)
  {
  }

  lemma {:induction false} RunGapAccount(s: State, t: int, steps: seq<Step>, k: Key)
    requires Running(s, k, t) && Advancing(s, t, steps)
    ensures GapAccount(s, t, Run(s, steps), EndTime(s, t, steps), k, GapLostIn(s, t, steps, k))
    ensures Running(Run(s, steps), k, EndTime(s, t, steps))
    decreases |steps|
  {
    hide GapAccount, Inv, NotBehind, Apply, Drains, Valid, Lost, Sane;
    if steps == [] {
      GapAccountSelf(s, t, k);
    } else {
      var step := steps[0];
      ApplyKeeps(s, step);
      var v := Apply(s, step);
      if Drains(s, step) {
        var u := TimeOf(step, 0);
        StepGapAccount(s, t, step, k);
        RunGapAccount(v, u, steps[1..], k);
        GapAccountTrans(s, t, v, u, Run(s, steps), EndTime(s, t, steps), k,
                        Lost(s.endpoints[k].gap.value, t, u), GapLostIn(v, u, steps[1..], k));
      } else {
        RefusedChangesNothing(s, step);
        RunGapAccount(v, t, steps[1..], k);
      }
    }
  }

  /** The gap work granted on an endpoint is its allowance over the window less what its burst of one cut off,
      up to one request and the slack: exactly what was cut off is missing. */
  lemma GapRetained(s: State, t: int, steps: seq<Step>, k: Key)
    requires Running(s, k, t) && Advancing(s, t, steps)
    ensures var n := (GapGrants(Run(s, steps).settled, k) - GapGrants(s.settled, k)) as real;
            var due := Product(s.endpoints[k].gap.value.limit.rate, Seconds(EndTime(s, t, steps)) - Seconds(t))
                       - GapLostIn(s, t, steps, k);
            n * (1.0 - SLACK) - 1.0 <= due <= n + 1.0
  {
    hide Run, EndTime, GapLostIn, Advancing, Inv, Level, Refill, Seconds, Product, GapGrants, Valid;
    GapBurst(s, k);
    RunGapAccount(s, t, steps, k);
    var v, u := Run(s, steps), EndTime(s, t, steps);
    GapClosing(s.endpoints[k].gap.value, t, v.endpoints[k].gap.value, u,
               (GapGrants(v.settled, k) - GapGrants(s.settled, k)) as real, GapLostIn(s, t, steps, k));
  }

  lemma GapClosing(e: Bucket, t: int, f: Bucket, u: int, n: real, lost: real)
    requires Valid(e) && Valid(f) && e.limit.Limited? && f.limit == e.limit && e.limit.burst == 1
    requires e.last <= t && f.last <= u
    requires n * (1.0 - SLACK) <= Level(Refill(e, t)) - Level(Refill(f, u)) - lost <= n
    ensures n * (1.0 - SLACK) - 1.0 <= Product(e.limit.rate, Seconds(u) - Seconds(t)) - lost <= n + 1.0
  {
    hide Level, Refill, Seconds, Product;
    At(e, t);
    At(f, u);
    Split(e.limit.rate, Seconds(t), Seconds(u));
  }

  lemma Split(r: real, x: real, y: real)
    ensures Product(r, y - x) == Product(r, y) - Product(r, x)
  {
  }

  /** A gap request that waits below the cap with its own allowance in hand waits for the endpoint's token. */
  lemma GapBlocked(s: State, r: Request, t: int)
    requires NothingGrantable(s, t) && CanStartGap(s) && r in s.pending && r.work.GapRepair? && GapReady(s, r, t)
    ensures !TotalReady(s, r, t)
  {
    hide CanStartGap, GapReady, TotalReady;
    assert !Grantable(s, r, t);
  }

  /** A token's worth of time at a rate, and a millisecond. */
  function TokenMs(rate: real): real
    requires rate > 0.0
  {
    1.0 / rate * 1000.0 + 1.0
  }

  /** What one such wait cuts off is at most the allowance earned in the time of one token and a millisecond. */
  lemma CutPerToken(b: Bucket, e: Bucket, t: int)
    requires Valid(b) && Valid(e) && b.limit.Limited? && e.limit.Limited? && b.last <= t && !Ready(e, t)
    ensures Lost(b, t, t + WaitMs(e, t)) <= Product(TokenMs(e.limit.rate) / 1000.0, b.limit.rate)
  {
    WaitBounded(e, t);
    RefillValid(b, t);
    LostExactly(b, t, t + WaitMs(e, t));
    hide Lost, Level, Refill, Ready, WaitMs, TokenMs;
    CutAlgebra(Refill(b, t).tokens, b.limit.rate, b.limit.burst as real, WaitMs(e, t) as real, TokenMs(e.limit.rate));
  }

  lemma CutAlgebra(tokens: real, g: real, burst: real, w: real, m: real)
    requires tokens <= burst && g > 0.0 && 0.0 <= w <= m
    ensures tokens + w / 1000.0 * g - burst <= Product(m / 1000.0, g) && 0.0 <= Product(m / 1000.0, g)
  {
    MulMonotone(w / 1000.0, m / 1000.0, g);
    MulMonotone(0.0, m / 1000.0, g);
  }

  lemma WaitBounded(e: Bucket, t: int)
    requires Valid(e) && e.limit.Limited? && !Ready(e, t)
    ensures 1 <= WaitMs(e, t) && WaitMs(e, t) as real <= TokenMs(e.limit.rate)
  {
    RefillValid(e, t);
    WaitAtMost(1.0 - Refill(e, t).tokens, e.limit.rate);
  }

  lemma WaitAtMost(missing: real, rate: real)
    requires 0.0 < missing <= 1.0 && rate > 0.0
    ensures 1 <= Max(1, Ceil(missing / rate * 1000.0))
    ensures Max(1, Ceil(missing / rate * 1000.0)) as real <= 1.0 / rate * 1000.0 + 1.0
  {
    CeilBounds(missing / rate * 1000.0);
    QuotientGrows(missing, rate);
  }

  lemma QuotientGrows(missing: real, rate: real)
    requires 0.0 < missing <= 1.0 && rate > 0.0
    ensures 0.0 < missing / rate <= 1.0 / rate
  {
  }

  /** So the full allowance is not retained: at rates 1.1 and 1 a gap request that has its allowance in hand when
      main work takes the token waits 910 milliseconds, and 0.91 of its next allowance is cut off meanwhile. */
  lemma AllowanceCut(t: int)
    ensures var total, gap := Bucket(Limited(1.1, 1), 0.0, t), Bucket(Limited(1.0, 1), 1.0, t);
            WaitMs(total, t) == 910 && Lost(gap, t, t + 910) == 0.91
  {
    var gap := Bucket(Limited(1.0, 1), 1.0, t);
    assert (-(1.0 / 1.1 * 1000.0)).Floor == -910;
    assert Valid(gap) && Refill(gap, t).tokens == 1.0;
    LostExactly(gap, t, t + 910);
    assert (t + 910 - t) as real / 1000.0 * 1.0 == 0.91;
    hide Lost, Level;
  }
}

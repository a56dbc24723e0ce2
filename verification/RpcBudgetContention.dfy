/** Exactly when the reservation for main work holds. */
module RpcBudgetContention {
  import opened Common
  import opened TokenBucket
  import opened RpcBudgetModel
  import opened RpcBudgetSafety
  import opened RpcBudgetOrder
  import opened RpcBudgetRate
  import opened RpcBudgetQuiescence
  import opened RpcBudgetAccounting
  import opened RpcBudgetReserve

  // ---------------------------------------------------------------- grants only accumulate

  lemma {:induction false} MainGrantsGrow(a: seq<Outcome>, b: seq<Outcome>, k: Key)
    requires a <= b
    ensures MainGrants(a, k) <= MainGrants(b, k)
    decreases |b|
  {
    if |a| < |b| {
      var n := |b| - 1;
      MainGrantsGrow(a, b[..n], k);
      assert b == b[..n] + [b[n]];
      GrantsSnoc(b[..n], b[n], k);
      hide Grants, GapGrants;
    } else {
      assert a == b;
    }
  }

  lemma BeforeExtends(s: State, step: Step)
    ensures s.settled <= Before(s, step).settled
  {
    hide RemoveAt, First;
  }

  lemma StepExtends(s: State, step: Step)
    requires Inv(s) && Sane(s) && (Drains(s, step) || !step.Stop?)
    ensures s.settled <= Apply(s, step).settled
  {
    if Drains(s, step) {
      BeforeExtends(s, step);
      BeforeDrain(s, step);
      DrainExtends(Before(s, step), TimeOf(step, 0));
      hide Inv, Sane, Drain, Before, Drains, Apply;
    } else {
      RefusedChangesNothing(s, step);
    }
  }

  lemma {:induction false} WindowExtends(s: State, t: int, steps: seq<Step>, k: Key, d: Option<nat>)
    requires Inv(s) && Pressing(s, t, steps, k, d)
    ensures s.settled <= Run(s, steps).settled
    decreases |steps|
  {
    hide Inv, Apply, Drains, MainWaits, Sane;
    if steps != [] {
      ApplyKeeps(s, steps[0]);
      NotStop(s, t, steps, k, d);
      StepExtends(s, steps[0]);
      var v := Apply(s, steps[0]);
      if Drains(s, steps[0]) {
        WindowExtends(v, TimeOf(steps[0], 0), steps[1..], k, d);
      } else {
        WindowExtends(v, t, steps[1..], k, d);
      }
    }
  }

  lemma NotStop(s: State, t: int, steps: seq<Step>, k: Key, d: Option<nat>)
    requires Inv(s) && Pressing(s, t, steps, k, d) && steps != []
    ensures !steps[0].Stop?
  {
    hide Inv, Apply, MainWaits;
  }

  // ---------------------------------------------------------------- a burst of two or more

  lemma LostFull(b: Bucket, t: int, u: int)
    requires Valid(b) && b.limit.Limited? && b.last <= t <= u && Lost(b, t, u) > 0.0
    ensures Refill(b, u).tokens == b.limit.burst as real
  {
    LostExactly(b, t, u);
    RefillComposes(b, t, u);
    hide Level;
  }

  lemma LostNonNegative(b: Bucket, t: int, u: int)
    requires Valid(b) && b.limit.Limited? && b.last <= t <= u
    ensures Lost(b, t, u) >= 0.0
  {
    LostExactly(b, t, u);
    hide Lost, Refill;
  }

  /** A drain that starts with a full bucket of two or more and ends without a token has granted main work:
      the gap bucket pays for one request at most. */
  lemma FullDrainServes(e: Endpoint, f: Endpoint, n: int, g: int, u: int)
    requires SharedEndpoint(e) && Booked(e, f, n, g, u)
    requires e.total.last <= u && e.gap.value.last <= u && f.total.last <= u && f.gap.value.last <= u
    requires e.gap.value.limit.burst == 1
    requires Refill(e.total, u).tokens >= 2.0 && Refill(f.total, u).tokens < 1.0 - SLACK
    ensures n > g
  {
    At(e.total, u);
    At(f.total, u);
    At(e.gap.value, u);
    At(f.gap.value, u);
    hide Refill, Level, Seconds, Product;
    assert n as real > 1.0;
    assert g as real * (1.0 - SLACK) <= 1.0;
    assert g <= 1;
  }

  lemma LossServes(s: State, t: int, step: Step, k: Key)
    requires Pressed(s, k, t) && Drains(s, step) && t <= TimeOf(step, 0)
    requires Sane(s) && MainWaits(Apply(s, step), k) && s.endpoints[k].total.limit.burst >= 2
    requires Lost(s.endpoints[k].total, t, TimeOf(step, 0)) > 0.0
    ensures MainGrants(Apply(s, step).settled, k) > MainGrants(s.settled, k)
  {
    hide Inv, Drain, Grants, GapGrants, Level, Refill, NothingGrantable, MainWaits, Valid, Apply, Before, Drains, Lost,
         Sane, TimeOf;
    var u, b, v := TimeOf(step, 0), Before(s, step), Apply(s, step);
    GapBurst(s, k);
    StepAccount(s, t, step, k);
    PressedUnready(v, k, u);
    BeforeKeeps(s, step);
    BeforeGrants(s, step, k);
    BeforeDrain(s, step);
    assert Shared(b, k);
    DrainLedger(b, k, u);
    LostFull(s.endpoints[k].total, t, u);
    FullDrainServes(s.endpoints[k], v.endpoints[k], Grants(v.settled, k) - Grants(s.settled, k),
                    GapGrants(v.settled, k) - GapGrants(s.settled, k), u);
  }

  /** With a burst of two or more, a window either cuts nothing off or grants main work. */
  lemma {:induction false} ServedOrKept(s: State, t: int, steps: seq<Step>, k: Key)
    requires Pressed(s, k, t) && Pressing(s, t, steps, k, None) && s.endpoints[k].total.limit.burst >= 2
    ensures MainGrants(Run(s, steps).settled, k) > MainGrants(s.settled, k) || LostIn(s, t, steps, k) == 0.0
    decreases |steps|
  {
    hide Account, Inv, NotBehind, MainWaits, NothingGrantable, Apply, Drains, SharedEndpoint, Lost, Sane, MainGrants;
    if steps != [] {
      var step := steps[0];
      ApplyKeeps(s, step);
      var v := Apply(s, step);
      if Drains(s, step) {
        var u := TimeOf(step, 0);
        StepServesOrKeeps(s, t, step, k);
        WindowExtends(v, u, steps[1..], k, None);
        MainGrantsGrow(v.settled, Run(v, steps[1..]).settled, k);
        ServedOrKept(v, u, steps[1..], k);
      } else {
        RefusedChangesNothing(s, step);
        ServedOrKept(v, t, steps[1..], k);
      }
    }
  }

  lemma StepServesOrKeeps(s: State, t: int, step: Step, k: Key)
    requires Pressed(s, k, t) && Drains(s, step) && t <= TimeOf(step, 0)
    requires Sane(s) && MainWaits(Apply(s, step), k) && s.endpoints[k].total.limit.burst >= 2
    ensures var v, u := Apply(s, step), TimeOf(step, 0);
            && Pressed(v, k, u) && v.endpoints[k].total.limit.burst >= 2
            && MainGrants(v.settled, k) >= MainGrants(s.settled, k)
            && (MainGrants(v.settled, k) > MainGrants(s.settled, k) || Lost(s.endpoints[k].total, t, u) == 0.0)
  {
    hide Account, Inv, NotBehind, MainWaits, NothingGrantable, Apply, Drains, SharedEndpoint, Lost, Sane, MainGrants,
         TimeOf;
    var v, u := Apply(s, step), TimeOf(step, 0);
    StepAccount(s, t, step, k);
    SameBurst(s, t, v, u, k, Lost(s.endpoints[k].total, t, u));
    StepExtends(s, step);
    MainGrantsGrow(s.settled, v.settled, k);
    LossSign(s, t, u, k);
    if Lost(s.endpoints[k].total, t, u) > 0.0 { LossServes(s, t, step, k); }
  }

  lemma LossSign(s: State, t: int, u: int, k: Key)
    requires Shared(s, k) && NotBehind(s, t) && t <= u
    ensures Lost(s.endpoints[k].total, t, u) >= 0.0
  {
    hide Lost;
    LostNonNegative(s.endpoints[k].total, t, u);
  }

  lemma SameBurst(s: State, t: int, v: State, u: int, k: Key, lost: real)
    requires Shared(s, k) && Account(s, t, v, u, k, lost)
    ensures Shared(v, k) && v.endpoints[k].total.limit.burst == s.endpoints[k].total.limit.burst
  {
    hide Level, Refill, Grants, GapGrants, Valid;
  }

  /** With a burst of two or more, main work is granted in every window in which it waits and the difference
      of the rates is worth more than two requests, however late the drains come. */
  lemma MainServed(s: State, t: int, steps: seq<Step>, k: Key)
    requires Pressed(s, k, t) && Pressing(s, t, steps, k, None) && s.endpoints[k].total.limit.burst >= 2
    requires Difference(s.endpoints[k].total.limit, s.endpoints[k].gap.value.limit, t, EndTime(s, t, steps)) > 2.0
    ensures MainGrants(Run(s, steps).settled, k) > MainGrants(s.settled, k)
  {
    ServedOrKept(s, t, steps, k);
    hide Pressed, Pressing, Run, EndTime, Difference, MainGrants, LostIn;
    MainReserved(s, t, steps, k);
  }

  // ---------------------------------------------------------------- a burst of one

  /** Both buckets of an endpoint with a burst of one: no token of its own, a full gap allowance. */
  function Emptied(r: real, g: real, t: int): Endpoint {
    Endpoint(Bucket(Limited(r, 1), 0.0, t), Some(Bucket(Limited(g, 1), 1.0, t)))
  }

  function Exhausted(r: real, g: real, t: int): Endpoint {
    Endpoint(Bucket(Limited(r, 1), 0.0, t), Some(Bucket(Limited(g, 1), 0.0, t)))
  }

  /** A main and a gap request wait for such an endpoint, and nothing lapses up to u. */
  ghost predicate Contended(s: State, r: real, g: real, t: int, u: int) {
    && Inv(s) && !s.stopped && CanStartGap(s) && s.gap.LimitedGap?
    && s.endpoints == map["k" := Emptied(r, g, t)]
    && |s.pending| == 2 && s.pending[0].work.Main? && s.pending[1].work.GapRepair?
    && s.pending[0].key == s.pending[1].key == "k"
    && s.pending[0].expiresAt > u && s.pending[1].expiresAt > u
    && forall id :: id in s.leases ==> s.leases[id].expiresAt > u
  }

  /** From t to u the endpoint earns a token. */
  ghost predicate Recovers(r: real, t: int, u: int) { t < u && (u - t) as real / 1000.0 * r >= 1.0 }

  lemma EmptiedBuckets(r: real, g: real, t: int, u: int)
    requires 0.0 < g && 0.0 < r && Recovers(r, t, u)
    ensures var e := Emptied(r, g, t);
            && !Ready(e.total, t) && Ready(e.total, u) && Ready(e.gap.value, u)
            && Refill(e.total, u) == Bucket(Limited(r, 1), 1.0, u)
            && Refill(e.gap.value, u) == Bucket(Limited(g, 1), 1.0, u)
  {
    assert (u - t) as real / 1000.0 * g >= 0.0;
  }

  lemma ContendedPressed(s: State, r: real, g: real, t: int, u: int)
    requires Contended(s, r, g, t, u) && 0.0 < g && 0.0 < r && Recovers(r, t, u)
    ensures Pressed(s, "k", t) && Sane(s)
  {
    EmptiedBuckets(r, g, t, u);
    InvSane(s);
    assert s.pending[0] in s.pending;
    assert Shared(s, "k");
    assert NotBehind(s, t);
    hide Inv, Refill, Ready, Sane;
    forall q | q in s.pending ensures !Grantable(s, q, t) {
      assert q.key == "k";
    }
  }

  lemma ContendedSwept(s: State, r: real, g: real, t: int, u: int)
    requires Contended(s, r, g, t, u) && Sane(s)
    ensures Swept(s, u) == s
  {
    hide Inv, Sane;
    assert Lapsed(s.leases, u) == map[];
    assert GapLeases(map[]) == {};
    assert Reclaim(s, u) == s;
    assert FirstExpired(s, u) == 2;
  }

  lemma ContendedPick(s: State, r: real, g: real, t: int, u: int)
    requires Contended(s, r, g, t, u) && 0.0 < g && 0.0 < r && Recovers(r, t, u)
    ensures Pick(s, u) == 1
  {
    EmptiedBuckets(r, g, t, u);
    hide Inv, Refill, Ready;
    assert !GapGrantable(s, s.pending[0], u) && GapGrantable(s, s.pending[1], u);
    assert NextGap(s, u) == 1;
  }

  lemma ContendedSpend(s: State, r: real, g: real, t: int, u: int)
    requires Contended(s, r, g, t, u) && 0.0 < g && 0.0 < r && Recovers(r, t, u)
    ensures "k" in Scan(s, u).endpoints && Spend(Scan(s, u).endpoints["k"], GapRepair, u) == Exhausted(r, g, u)
  {
    var e, f := Emptied(r, g, t), Scan(s, u).endpoints["k"];
    EmptiedBuckets(r, g, t, u);
    assert f.total == Refill(e.total, u) || f.total == e.total;
    assert f.gap == Some(Refill(e.gap.value, u)) || f.gap == e.gap;
    RefillIdempotent(e.total, u);
    RefillIdempotent(e.gap.value, u);
    hide Inv, Scan;
  }

  /** The drain at u hands the recovered token to the gap request; the main request goes on waiting. */
  lemma ContendedDrain(s: State, r: real, g: real, t: int, u: int)
    requires Contended(s, r, g, t, u) && 0.0 < g && 0.0 < r && Recovers(r, t, u)
    ensures Sane(s) && Drain(s, u).pending == [s.pending[0]]
    ensures Drain(s, u).settled == s.settled + [Granted(s.pending[1].ticket, "k", GapRepair)]
  {
    ContendedPressed(s, r, g, t, u);
    ContendedSwept(s, r, g, t, u);
    ContendedPick(s, r, g, t, u);
    ContendedSpend(s, r, g, t, u);
    ContendedGrant(s, r, g, t, u);
    hide Inv, Sane, Swept, GrantAll, Pick;
  }

  lemma ContendedGrant(s: State, r: real, g: real, t: int, u: int)
    requires Sane(s) && Pick(s, u) == 1 && |s.pending| == 2 && s.pending[0].work.Main?
    requires s.pending[0].key == s.pending[1].key == "k" && s.pending[1].work.GapRepair?
    requires "k" in Scan(s, u).endpoints && Spend(Scan(s, u).endpoints["k"], GapRepair, u) == Exhausted(r, g, u)
    ensures GrantAll(s, u).pending == [s.pending[0]]
    ensures GrantAll(s, u).settled == s.settled + [Granted(s.pending[1].ticket, "k", GapRepair)]
  {
    ScanRest(s, u);
    ScanSane(s, u);
    GrantSane(Scan(s, u), 1, u);
    hide Scan, Sane, Pick;
    var d := Grant(Scan(s, u), 1, u);
    assert d.pending == [s.pending[0]] && d.endpoints["k"] == Exhausted(r, g, u);
    ExhaustedStops(d, r, g, u);
    ScanRest(d, u);
    assert GrantAll(d, u) == Scan(d, u);
  }

  lemma ExhaustedStops(d: State, r: real, g: real, u: int)
    requires |d.pending| == 1 && d.pending[0].work.Main? && d.pending[0].key == "k"
    requires "k" in d.endpoints && d.endpoints["k"] == Exhausted(r, g, u)
    ensures Pick(d, u) == |d.pending|
  {
    hide Pick;
    assert !Ready(d.endpoints["k"].total, u);
    PickStops(d, u);
  }

  lemma ContendedWindow(s: State, r: real, g: real, t: int, u: int)
    requires Contended(s, r, g, t, u) && 0.0 < g && 0.0 < r && Recovers(r, t, u)
    ensures Pressed(s, "k", t) && Pressing(s, t, [Fire(u)], "k", None) && EndTime(s, t, [Fire(u)]) == u
    ensures MainGrants(Run(s, [Fire(u)]).settled, "k") == MainGrants(s.settled, "k")
  {
    hide Inv, Drain, Grants, GapGrants, Sane, Pressed, Pressing, Run, EndTime, Recovers, Emptied;
    ContendedPressed(s, r, g, t, u);
    ContendedDrain(s, r, g, t, u);
    ApplyKeeps(s, Fire(u));
    GrantsSnoc(s.settled, Granted(s.pending[1].ticket, "k", GapRepair), "k");
    var v := Apply(s, Fire(u));
    assert v == Drain(s, u);
    assert v.pending[0] in v.pending;
    assert MainWaits(v, "k");
    assert t <= u by { RecoversLater(r, t, u); }
    OneStep(s, t, u, v);
  }

  lemma RecoversLater(r: real, t: int, u: int)
    requires Recovers(r, t, u)
    ensures t < u
  {
  }

  lemma OneStep(s: State, t: int, u: int, v: State)
    requires Inv(s) && Sane(s) && v == Apply(s, Fire(u)) && Inv(v) && MainWaits(v, "k") && t <= u
    ensures Pressing(s, t, [Fire(u)], "k", None) && EndTime(s, t, [Fire(u)]) == u && Run(s, [Fire(u)]) == v
  {
    hide Inv, Apply, Sane, MainWaits;
    var steps := [Fire(u)];
    assert steps[1..] == [];
    assert Pressing(v, u, [], "k", None) && EndTime(v, u, []) == u && Run(v, []) == v;
    assert Drains(s, steps[0]) && TimeOf(steps[0], 0) == u;
  }

  /** The two requests waiting on their own, with a common deadline. */
  ghost function Standoff(r: real, g: real, t: int, deadline: int): State {
    State(LimitedGap(g, 10), 1000, map["k" := Emptied(r, g, t)],
          [Request(0, "m", "k", Main, deadline), Request(1, "g", "k", GapRepair, deadline)],
          map[], 0, None, false, 2, [])
  }

  lemma StandoffContended(r: real, g: real, t: int, u: int, deadline: int)
    requires 0.0 < g < r && u < deadline
    ensures Contended(Standoff(r, g, t, deadline), r, g, t, u)
  {
    assert GapLeases(map[]) == {};
  }

  // ---------------------------------------------------------------- exactly

  /** Whatever the state and the window, main work that waits is served once the difference of the rates is
      worth more than two requests. */
  ghost predicate Guaranteed(r: real, g: real, burst: int) {
    forall s: State, t: int, steps: seq<Step>, k: Key ::
      (&& Pressed(s, k, t) && Pressing(s, t, steps, k, None)
       && s.endpoints[k].total.limit == Limited(r, burst) && s.endpoints[k].gap.value.limit == Limited(g, 1)
       && Difference(Limited(r, burst), Limited(g, 1), t, EndTime(s, t, steps)) > 2.0) ==>
      MainGrants(Run(s, steps).settled, k) > MainGrants(s.settled, k)
  }

  /** Any positive difference is worth more than two requests after some whole number of milliseconds. */
  lemma Worth(d: real) returns (v: nat)
    requires d > 0.0
    ensures v > 0 && Product(d, v as real) > 2000.0
  {
    hide Product;
    var q := Quotient(d);
    v := Above(q);
    ScaledAbove(d, q, v as real);
  }

  lemma Quotient(d: real) returns (q: real)
    requires d > 0.0
    ensures q > 0.0 && Product(d, q) == 2000.0
  {
    q := 2000.0 / d;
  }

  lemma Above(q: real) returns (v: nat)
    requires q > 0.0
    ensures v > 0 && v as real > q
  {
    CeilBounds(q);
    v := Ceil(q) + 1;
  }

  lemma ScaledAbove(d: real, q: real, v: real)
    requires v > q && d > 0.0
    ensures Product(d, v) > Product(d, q) && Product(v, d) > Product(q, d)
  {
    assert d * (v - q) > 0.0;
  }

  /** A burst of one fails at every pair of rates that leave main work a difference. */
  lemma BurstOneFails(r: real, g: real)
    requires 0.0 < g < r && r * (1.0 - SLACK) > g
    ensures !Guaranteed(r, g, 1)
  {
    hide Pressed, Pressing, MainGrants, Run, EndTime, Contended, Recovers, Standoff;
    var v := Worth(r * (1.0 - SLACK) - g);
    WindowWorth(r, g, v);
    var s := Standoff(r, g, 0, v + 1);
    StandoffContended(r, g, 0, v, v + 1);
    ContendedWindow(s, r, g, 0, v);
    StandoffLimits(r, g, v + 1);
  }

  lemma StandoffLimits(r: real, g: real, deadline: int)
    ensures var s := Standoff(r, g, 0, deadline);
            "k" in s.endpoints && s.endpoints["k"] == Emptied(r, g, 0)
  {
  }

  lemma WindowWorth(r: real, g: real, v: nat)
    requires 0.0 < g < r && v > 0 && Product(r * (1.0 - SLACK) - g, v as real) > 2000.0
    ensures Difference(Limited(r, 1), Limited(g, 1), 0, v) > 2.0 && Recovers(r, 0, v)
  {
    hide Product;
    var x, d := v as real, r * (1.0 - SLACK) - g;
    SlackShrinks(r, g);
    ScaledAbove(x, d, r);
    Thousandth(d, x);
    Thousandth(r, x);
    assert Seconds(v) - Seconds(0) == x / 1000.0;
  }

  lemma SlackShrinks(r: real, g: real)
    requires 0.0 < g && 0.0 < r
    ensures r > r * (1.0 - SLACK) - g
  {
  }

  lemma Thousandth(d: real, x: real)
    ensures Product(d, x / 1000.0) == Product(d, x) / 1000.0 && x / 1000.0 * d == Product(d, x) / 1000.0
  {
  }

  lemma BurstTwoHolds(r: real, g: real, burst: int)
    requires burst >= 2
    ensures Guaranteed(r, g, burst)
  {
    hide Inv, NotBehind, MainWaits, NothingGrantable, Pressing, MainGrants, Run, EndTime, Difference;
    forall s: State, t: int, steps: seq<Step>, k: Key
      | && Pressed(s, k, t) && Pressing(s, t, steps, k, None)
        && s.endpoints[k].total.limit == Limited(r, burst) && s.endpoints[k].gap.value.limit == Limited(g, 1)
        && Difference(Limited(r, burst), Limited(g, 1), t, EndTime(s, t, steps)) > 2.0
      ensures MainGrants(Run(s, steps).settled, k) > MainGrants(s.settled, k)
    {
      MainServed(s, t, steps, k);
    }
  }

  /** For every pair of rates the source accepts, the reservation holds exactly when the burst is at least two,
      or the rates leave no difference beyond the slack and it promises nothing. */
  lemma ReservationExactly(r: real, g: real, burst: int)
    requires 0.0 < g < r && burst >= 1
    ensures Guaranteed(r, g, burst) <==> burst >= 2 || r * (1.0 - SLACK) <= g
  {
    hide Guaranteed;
    if burst >= 2 {
      BurstTwoHolds(r, g, burst);
    } else if r * (1.0 - SLACK) <= g {
      NoDifference(r, g, burst);
    } else {
      BurstOneFails(r, g);
    }
  }

  lemma {:induction false} TimeAdvances(s: State, t: int, steps: seq<Step>, k: Key)
    requires Inv(s) && Pressing(s, t, steps, k, None)
    ensures EndTime(s, t, steps) >= t
    decreases |steps|
  {
    hide Inv, Apply, Drains, MainWaits;
    if steps != [] {
      ApplyKeeps(s, steps[0]);
      var v := Apply(s, steps[0]);
      if Drains(s, steps[0]) {
        TimeAdvances(v, TimeOf(steps[0], 0), steps[1..], k);
      } else {
        TimeAdvances(v, t, steps[1..], k);
      }
    }
  }

  lemma NoDifference(r: real, g: real, burst: int)
    requires r * (1.0 - SLACK) <= g
    ensures Guaranteed(r, g, burst)
  {
    hide Pressing, MainGrants, Run, EndTime, Inv, Difference;
    forall s: State, t: int, steps: seq<Step>, k: Key | Pressed(s, k, t) && Pressing(s, t, steps, k, None)
      ensures Difference(Limited(r, burst), Limited(g, 1), t, EndTime(s, t, steps)) <= 2.0
    {
      TimeAdvances(s, t, steps, k);
      NothingWorth(r, g, burst, t, EndTime(s, t, steps));
    }
  }

  lemma NothingWorth(r: real, g: real, burst: int, t: int, u: int)
    requires r * (1.0 - SLACK) <= g && t <= u
    ensures Difference(Limited(r, burst), Limited(g, 1), t, u) <= 2.0
  {
    var x, d := Seconds(u) - Seconds(t), r * (1.0 - SLACK) - g;
    assert x >= 0.0 && d <= 0.0;
    assert d * x <= 0.0;
  }

  // ---------------------------------------------------------------- the contention is reached

  /** Every bucket has already been refilled at this reading. */
  ghost predicate Still(es: map<Key, Endpoint>, t: int) {
    forall k :: k in es ==> es[k].total.last >= t && (es[k].gap.Some? ==> es[k].gap.value.last >= t)
  }

  lemma StillTouched(es: map<Key, Endpoint>, totals: set<Key>, gaps: set<Key>, t: int)
    requires Still(es, t)
    ensures TouchTotals(es, totals, t) == es && TouchGaps(es, gaps, t) == es
  {
  }

  lemma StillScan(s: State, t: int)
    requires Still(s.endpoints, t)
    ensures Scan(s, t) == s
  {
    StillTouched(s.endpoints, KeysOf(s.pending), ConsultedGaps(s, t), t);
    hide TouchTotals, TouchGaps, ConsultedGaps;
  }

  lemma StillArm(s: State, t: int)
    requires Sane(s) && Still(s.endpoints, t)
    ensures Arm(s, t) == s.(timer := Arm(s, t).timer)
  {
    StillTouched(s.endpoints, {}, RearmGaps(s, s.pending), t);
    hide TouchTotals, TouchGaps, RearmGaps, Delays, Sane;
  }

  ghost predicate NothingEnds(s: State, t: int) {
    && (forall r :: r in s.pending ==> r.expiresAt > t)
    && (forall id :: id in s.leases ==> s.leases[id].expiresAt > t)
  }

  lemma NothingSwept(s: State, t: int)
    requires Sane(s) && NothingEnds(s, t)
    ensures Swept(s, t) == s
  {
    hide Sane;
    assert Lapsed(s.leases, t) == map[];
    assert GapLeases(map[]) == {};
    assert Reclaim(s, t) == s;
    assert FirstExpired(s, t) == |s.pending|;
  }

  /** A drain with nothing to do only sets the timer. */
  lemma QuietDrain(s: State, t: int)
    requires Sane(s) && !s.stopped && Still(s.endpoints, t) && NothingEnds(s, t) && NothingGrantable(s, t)
    ensures Drain(s, t) == s.(timer := Drain(s, t).timer)
  {
    NothingSwept(s, t);
    PickStops(s, t);
    StillScan(s, t);
    StillArm(s, t);
    hide Sane, Swept, Pick, Scan, Arm, Still;
    assert GrantAll(s, t) == s;
  }

  ghost function Fresh(r: real, g: real, t: int): State {
    Initial([("k", Limited(r, 1))], LimitedGap(g, 10), 60000, t)
  }

  lemma FreshIs(r: real, g: real, t: int)
    requires 0.0 < g < r
    ensures Inv(Fresh(r, g, t))
    ensures Fresh(r, g, t).endpoints == map["k" := Endpoint(Full(Limited(r, 1), t), Some(Full(Limited(g, 1), t)))]
  {
    var configs: seq<(Key, Limit)> := [("k", Limited(r, 1))];
    assert ValidConfig(configs, LimitedGap(g, 10), 60000);
    InitialSafe(configs, LimitedGap(g, 10), 60000, t);
    hide Inv;
    assert configs[..0] == [];
    assert NewEndpoints([], LimitedGap(g, 10), t) == map[];
  }

  /** After the first request has taken the only token. */
  ghost predicate Taken(s: State, r: real, g: real, t: int, n: nat) {
    && s.endpoints == map["k" := Emptied(r, g, t)] && s.gap == LimitedGap(g, 10) && s.gapInFlight == 0
    && !s.stopped && s.leases == map["a" := Lease("k", Main, t + 60000)] && |s.pending| == n
  }

  lemma FirstTaken(r: real, g: real, t: int)
    requires 0.0 < g < r
    ensures Inv(Fresh(r, g, t)) && Sane(Fresh(r, g, t))
    ensures Taken(Apply(Fresh(r, g, t), Acquire("a", "k", Main, t)), r, g, t, 0)
  {
    var s := Fresh(r, g, t);
    FreshIs(r, g, t);
    InvSane(s);
    var e := Enqueue(s, "a", "k", Main, t);
    EnqueueKeeps(s, "a", "k", Main, t);
    InvSane(e);
    hide Inv, Sane;
    assert s.pending == [] && s.leases == map[] && s.gapInFlight == 0 && !s.stopped;
    FirstGrant(e, r, g, t);
  }

  lemma FirstGrant(e: State, r: real, g: real, t: int)
    requires Sane(e) && 0.0 < g < r && !e.stopped && e.leases == map[] && e.gapInFlight == 0
    requires e.pending == [Request(0, "a", "k", Main, t + WAIT_MS)] && e.gap == LimitedGap(g, 10) && e.leaseMs == 60000
    requires e.endpoints == map["k" := Endpoint(Full(Limited(r, 1), t), Some(Full(Limited(g, 1), t)))]
    ensures Taken(Drain(e, t), r, g, t, 0)
  {
    hide Sane, Swept, Pick, Scan, Arm, Grant, Emptied, Full;
    NothingSwept(e, t);
    FirstPass(e, r, g, t);
    FirstGranted(e, r, g, t);
    GrantSane(e, 0, t);
    var d := Grant(e, 0, t);
    EmptiedQuiet(d, r, g, t);
    StillScan(d, t);
    PickStops(d, t);
    StillArm(d, t);
    assert GrantAll(d, t) == d;
    assert GrantAll(e, t) == d;
  }

  lemma FirstGranted(e: State, r: real, g: real, t: int)
    requires !e.stopped && e.leases == map[] && e.gapInFlight == 0 && "k" in e.endpoints
    requires e.pending == [Request(0, "a", "k", Main, t + WAIT_MS)] && e.gap == LimitedGap(g, 10) && e.leaseMs == 60000
    requires e.endpoints.Keys == {"k"} && Spend(e.endpoints["k"], Main, t) == Emptied(r, g, t)
    ensures Taken(Grant(e, 0, t), r, g, t, 0)
  {
    hide Spend;
    assert e.endpoints["k" := Emptied(r, g, t)] == map["k" := Emptied(r, g, t)];
  }

  lemma FirstPass(e: State, r: real, g: real, t: int)
    requires 0.0 < g < r && |e.pending| == 1 && e.pending[0].work.Main? && e.pending[0].key == "k"
    requires e.endpoints == map["k" := Endpoint(Full(Limited(r, 1), t), Some(Full(Limited(g, 1), t)))]
    ensures Scan(e, t) == e && Pick(e, t) == 0
    ensures Spend(e.endpoints["k"], Main, t) == Emptied(r, g, t)
  {
    assert Still(e.endpoints, t);
    StillScan(e, t);
    hide Scan;
    assert MainGrantable(e, e.pending[0], t) && !GapGrantable(e, e.pending[0], t);
  }

  /** While there is no token, another request joins the queue and nothing else happens. */
  lemma JoinsQueue(s: State, r: real, g: real, t: int, n: nat, id: Id, work: Work)
    requires Inv(s) && Sane(s) && Taken(s, r, g, t, n) && n < 2 && NothingEnds(s, t)
    requires id != "a" && (forall q :: q in s.pending ==> q.id != id && q.key == "k")
    ensures var v := Apply(s, Acquire(id, "k", work, t));
            && Taken(v, r, g, t, n + 1) && NothingEnds(v, t)
            && v.pending == s.pending + [Request(s.accepted, id, "k", work, t + WAIT_MS)]
  {
    hide Inv, Sane, Drain, Grantable, Still, NothingGrantable, Emptied;
    JoinerAccepted(s, r, g, t, n, id, work);
    var e := Enqueue(s, id, "k", work, t);
    EnqueueKeeps(s, id, "k", work, t);
    InvSane(e);
    hide Accepts;
    EmptiedQuiet(e, r, g, t);
    QuietDrain(e, t);
  }

  lemma JoinerAccepted(s: State, r: real, g: real, t: int, n: nat, id: Id, work: Work)
    requires Taken(s, r, g, t, n) && n < 2 && id != "a" && (forall q :: q in s.pending ==> q.id != id)
    ensures Accepts(s, id, "k", work)
  {
  }

  lemma EmptiedQuiet(e: State, r: real, g: real, t: int)
    requires e.endpoints == map["k" := Emptied(r, g, t)] && forall q :: q in e.pending ==> q.key == "k"
    ensures Still(e.endpoints, t) && NothingGrantable(e, t)
  {
    assert !Ready(Emptied(r, g, t).total, t);
  }

  /** Three acquires on a new scheduler with a burst of one lead to the contention: the first takes the
      token, a main and a gap request wait. So main work can in fact be passed over for as long as it waits. */
  lemma ContentionReached(r: real, g: real, t: int, u: int)
    requires 0.0 < g < r && u < t + WAIT_MS
    ensures Inv(Fresh(r, g, t))
    ensures var steps := [Acquire("a", "k", Main, t), Acquire("m", "k", Main, t), Acquire("g", "k", GapRepair, t)];
            Contended(Run(Fresh(r, g, t), steps), r, g, t, u)
  {
    hide Inv, Sane, Apply, Fresh, Run, Emptied;
    var s := Fresh(r, g, t);
    FirstTaken(r, g, t);
    ThreeSteps(s, Acquire("a", "k", Main, t), Acquire("m", "k", Main, t), Acquire("g", "k", GapRepair, t));
    var s1 := Apply(s, Acquire("a", "k", Main, t));
    assert s1.pending == [];
    JoinsQueue(s1, r, g, t, 0, "m", Main);
    var s2 := Apply(s1, Acquire("m", "k", Main, t));
    JoinsQueue(s2, r, g, t, 1, "g", GapRepair);
    var s3 := Apply(s2, Acquire("g", "k", GapRepair, t));
    assert s3.pending[0] == s2.pending[0];
    assert Contended(s3, r, g, t, u);
  }

  lemma ThreeSteps(s: State, x: Step, y: Step, z: Step)
    requires Inv(s)
    ensures Sane(s) && Inv(Apply(s, x)) && Sane(Apply(s, x))
    ensures Inv(Apply(Apply(s, x), y)) && Sane(Apply(Apply(s, x), y))
    ensures Run(s, [x, y, z]) == Apply(Apply(Apply(s, x), y), z) && Inv(Apply(Apply(Apply(s, x), y), z))
  {
    hide Inv, Apply, Sane;
    ApplyKeeps(s, x);
    ApplyKeeps(Apply(s, x), y);
    ApplyKeeps(Apply(Apply(s, x), y), z);
    assert [x, y, z][1..] == [y, z] && [y, z][1..] == [z] && [z][1..] == [];
    var v := Apply(Apply(s, x), y);
    assert Run(Apply(v, z), []) == Apply(v, z);
    assert Run(v, [z]) == Apply(v, z);
    assert Run(Apply(s, x), [y, z]) == Apply(v, z);
  }
}

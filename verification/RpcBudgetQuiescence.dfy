/** Waiting ends: every timer firing at or after its deadline makes progress on a bounded measure. */
module RpcBudgetQuiescence {
  import opened Common
  import opened TokenBucket
  import opened RpcBudgetModel
  import opened RpcBudgetSafety
  import opened RpcBudgetOrder

  /** A grant turns a waiter into a lease, an expiry removes a waiter, a reclaim removes a lease. */
  ghost function Measure(s: State): nat { 2 * |s.pending| + |s.leases| }

  /** No bucket has been refilled at a later reading than this one. */
  ghost predicate NotBehind(s: State, now: int) {
    forall k :: k in s.endpoints ==>
      && s.endpoints[k].total.last <= now
      && (s.endpoints[k].gap.Some? ==> s.endpoints[k].gap.value.last <= now)
  }

  /** The timer state a drain at this reading leaves behind. */
  ghost predicate Armed(s: State, now: int) {
    && Sane(s)
    && (s.pending == [] ==> s.timer == None)
    && (s.pending != [] ==>
          exists w :: IsLeast(Delays(s, now), w) && s.timer == Some(now + Max(1, w)))
  }

  // ---------------------------------------------------------------- what a drain leaves behind

  lemma TouchNotBehind(s: State, totals: set<Key>, gaps: set<Key>, now: int, h: int)
    requires now <= h && NotBehind(s, h)
    ensures NotBehind(s.(endpoints := TouchGaps(TouchTotals(s.endpoints, totals, now), gaps, now)), h)
  {
  }

  lemma {:induction false} ExpireEndpoints(s: State, now: int)
    ensures Expire(s, now).endpoints == s.endpoints && Expire(s, now).gap == s.gap
    ensures Expire(s, now).gapInFlight == s.gapInFlight
    decreases |s.pending|
  {
    var i := FirstExpired(s, now);
    if i < |s.pending| { ExpireEndpoints(Defer(s, i), now); }
  }

  lemma SweptEndpoints(s: State, now: int)
    requires Sane(s)
    ensures Swept(s, now).endpoints == s.endpoints && Swept(s, now).gap == s.gap
    ensures Swept(s, now).gapInFlight <= s.gapInFlight
  {
    ExpireEndpoints(Reclaim(s, now), now);
  }

  lemma GrantNotBehind(s: State, i: nat, now: int, h: int)
    requires Sane(s) && now <= h && NotBehind(s, h) && i < |s.pending|
    ensures NotBehind(Grant(s, i, now), h)
  {
    assert s.pending[i] in s.pending;
  }

  lemma {:induction false} GrantAllNotBehind(s: State, now: int, h: int)
    requires Sane(s) && now <= h && NotBehind(s, h)
    ensures NotBehind(GrantAll(s, now), h)
    decreases |s.pending|
  {
    var i, c := Pick(s, now), Scan(s, now);
    ScanSane(s, now);
    TouchNotBehind(s, KeysOf(s.pending), ConsultedGaps(s, now), now, h);
    if i < |s.pending| {
      GrantSane(c, i, now);
      GrantNotBehind(c, i, now, h);
      GrantAllNotBehind(Grant(c, i, now), now, h);
    }
  }

  /** Re-reading the buckets does not change the delays the timer is armed with. */
  lemma ArmDelays(s: State, now: int)
    requires Sane(s)
    ensures Sane(Arm(s, now)) && Delays(Arm(s, now), now) == Delays(s, now)
  {
    hide WaitMs;
    var t := Arm(s, now);
    forall r | r in s.pending ensures MaxWait(t, r, now) == MaxWait(s, r, now) {
      var e := s.endpoints[r.key];
      TouchWait(e.total, now);
      if e.gap.Some? { TouchWait(e.gap.value, now); }
    }
  }

  /** A drain at any clock arms the timer with the least delay, and moves no bucket past the later of the
      clock and where the buckets already were. */
  lemma DrainArms(s: State, now: int)
    requires Inv(s) && !s.stopped
    ensures Sane(s)
    ensures var t := Drain(s, now); Inv(t) && !t.stopped && Armed(t, now)
    ensures forall h | h >= now && NotBehind(s, h) :: NotBehind(Drain(s, now), h)
  {
    DrainKeeps(s, now);
    SweptKeeps(s, now);
    SweptEndpoints(s, now);
    var b := Swept(s, now);
    GrantAllKeeps(b, now);
    ArmArms(GrantAll(b, now), now);
    forall h | h >= now && NotBehind(s, h) ensures NotBehind(Drain(s, now), h) {
      GrantAllNotBehind(b, now, h);
      ArmNotBehind(GrantAll(b, now), now, h);
    }
  }

  lemma ArmNotBehind(s: State, now: int, h: int)
    requires Sane(s) && now <= h && NotBehind(s, h)
    ensures NotBehind(Arm(s, now), h)
  {
    NoTotals(s.endpoints, now);
    TouchNotBehind(s, {}, RearmGaps(s, s.pending), now, h);
  }

  lemma ArmTimer(s: State, now: int)
    requires Sane(s) && s.pending != []
    ensures exists w :: IsLeast(Delays(s, now), w) && Arm(s, now).timer == Some(now + Max(1, w))
  {
    assert s.pending[0].expiresAt - now in Delays(s, now);
    assert IsLeast(Delays(s, now), Least(Delays(s, now)));
  }

  lemma ArmArms(s: State, now: int)
    requires Sane(s)
    ensures Armed(Arm(s, now), now)
  {
    ArmDelays(s, now);
    if s.pending != [] { ArmTimer(s, now); }
  }

  // ---------------------------------------------------------------- the measure

  lemma ReclaimMeasure(s: State, now: int)
    ensures Measure(Reclaim(s, now)) == Measure(s) - |Lapsed(s.leases, now)|
  {
    var gone := Lapsed(s.leases, now).Keys;
    assert s.leases.Keys == (s.leases - gone).Keys + gone;
  }

  lemma {:induction false} ExpireMeasure(s: State, now: int)
    ensures Measure(Expire(s, now)) <= Measure(s)
    ensures FirstExpired(s, now) < |s.pending| <==> Measure(Expire(s, now)) < Measure(s)
    ensures forall r :: r in s.pending && r.expiresAt > now ==> r in Expire(s, now).pending
    decreases |s.pending|
  {
    var i := FirstExpired(s, now);
    if i < |s.pending| {
      var t := Defer(s, i);
      forall r | r in s.pending && r.expiresAt > now ensures r in t.pending {
        var j :| 0 <= j < |s.pending| && s.pending[j] == r;
        assert j != i;
        assert t.pending[if j < i then j else j - 1] == r;
      }
      ExpireMeasure(t, now);
    }
  }

  lemma GrantMeasure(s: State, i: nat, now: int)
    requires i < |s.pending| && s.pending[i].key in s.endpoints && s.pending[i].id !in s.leases
    ensures Measure(Grant(s, i, now)) == Measure(s) - 1
  {
    assert Grant(s, i, now).leases.Keys == s.leases.Keys + {s.pending[i].id};
  }

  lemma {:induction false} GrantAllMeasure(s: State, now: int)
    requires Inv(s) && Sane(s) && !s.stopped
    ensures Measure(GrantAll(s, now)) <= Measure(s)
    ensures Pick(s, now) < |s.pending| <==> Measure(GrantAll(s, now)) < Measure(s)
    decreases |s.pending|
  {
    ScanSane(s, now);
    if Pick(s, now) < |s.pending| {
      GrantStep(s, now);
      GrantMeasure(Scan(s, now), Pick(s, now), now);
      GrantAllMeasure(Grant(Scan(s, now), Pick(s, now), now), now);
    }
  }

  // ---------------------------------------------------------------- progress

  /** A waiter whose advertised wait has passed is grantable, once the clock has also made up the lag it
      was behind the buckets. */
  lemma WaitedGrantable(s: State, now: int, lag: nat, u: int, r: Request)
    requires Configured(s) && Sane(s) && NotBehind(s, now + lag) && r in s.pending
    requires r.work.Main? || CanStartGap(s)
    requires u >= now + lag + MaxWait(s, r, now)
    ensures Grantable(s, r, u)
  {
    var e := s.endpoints[r.key];
    WaitSufficient(e.total, now, u);
    if r.work.GapRepair? && e.gap.Some? { WaitSufficient(e.gap.value, now, u); }
  }

  lemma SweptMeasure(s: State, u: int)
    requires Sane(s)
    ensures Measure(Swept(s, u)) <= Measure(s)
    ensures Lapsed(s.leases, u) != map[] || FirstExpired(s, u) < |s.pending| <==> Measure(Swept(s, u)) < Measure(s)
    ensures forall r :: r in s.pending && r.expiresAt > u ==> r in Swept(s, u).pending
  {
    ReclaimMeasure(s, u);
    ExpireMeasure(Reclaim(s, u), u);
  }

  /** A drain never raises the measure, and lowers it exactly when there is something to reclaim, expire
      or grant. */
  lemma DrainMeasure(s: State, u: int)
    requires Inv(s) && !s.stopped
    ensures Sane(s) && Measure(Drain(s, u)) <= Measure(s)
    ensures Measure(Drain(s, u)) < Measure(s) <==> Due(s, u)
  {
    hide Inv, Swept, Sane, GrantAll, FirstExpired, Pick, Lapsed, Due;
    InvSane(s);
    SweptKeeps(s, u);
    SweptMeasure(s, u);
    DueComputed(s, u);
    GrantAllMeasure(Swept(s, u), u);
  }

  /** A lease has lapsed, a waiter has expired or a waiter can be granted. */
  ghost predicate Due(s: State, u: int) {
    || (exists id :: id in s.leases && s.leases[id].expiresAt <= u)
    || (exists r :: r in s.pending && (r.expiresAt <= u || Grantable(s, r, u)))
  }

  /** The same, in terms of what the drain computes. */
  lemma DueComputed(s: State, u: int)
    requires Sane(s)
    ensures Due(s, u) <==>
            || Lapsed(s.leases, u) != map[]
            || FirstExpired(s, u) < |s.pending|
            || Pick(Swept(s, u), u) < |Swept(s, u).pending|
  {
    hide Grantable, Pick;
    if id :| id in s.leases && s.leases[id].expiresAt <= u {
      assert id in Lapsed(s.leases, u);
    } else if FirstExpired(s, u) == |s.pending| {
      assert Lapsed(s.leases, u) == map[];
      assert |GapLeases(map[])| == 0;
      assert Reclaim(s, u) == s;
      PickStops(s, u);
    } else {
      assert s.pending[FirstExpired(s, u)] in s.pending;
    }
  }

  lemma WaitedDue(s: State, now: int, lag: nat, u: int, r: Request)
    requires Inv(s) && Sane(s) && NotBehind(s, now + lag)
    requires r in s.pending && (r.work.Main? || CanStartGap(s)) && u >= now + lag + MaxWait(s, r, now)
    ensures Due(s, u)
  {
    WaitedGrantable(s, now, lag, u, r);
  }

  /** Every firing at or after the deadline grants a request, expires a request or reclaims a lease: at
      once when no bucket is ahead of the clock, and by the largest such lead later otherwise. */
  lemma FireProgress(s: State, now: int, lag: nat, u: int)
    requires Inv(s) && !s.stopped && NotBehind(s, now + lag) && Armed(s, now)
    requires s.timer.Some? && u >= s.timer.value + lag
    ensures Measure(Drain(s, u)) < Measure(s)
  {
    var w :| IsLeast(Delays(s, now), w) && s.timer == Some(now + Max(1, w));
    DueCause(s, now, lag, u, w);
    DrainMeasure(s, u);
  }

  /** Whatever delay set the timer, its cause is due. */
  lemma DueCause(s: State, now: int, lag: nat, u: int, w: int)
    requires Inv(s) && !s.stopped && Sane(s) && NotBehind(s, now + lag)
    requires w in Delays(s, now) && u >= now + lag + w
    ensures Due(s, u)
  {
    if r :| r in s.pending && w == r.expiresAt - now {
      assert r.expiresAt <= u;
    } else if id :| id in s.leases && w == s.leases[id].expiresAt - now {
      assert s.leases[id].expiresAt <= u;
    } else {
      var r :| r in s.pending && (r.work.Main? || CanStartGap(s)) && w == MaxWait(s, r, now);
      WaitedDue(s, now, lag, u, r);
    }
  }

  /** The state after the timer fires at these clock readings with no calls in between. */
  ghost function AfterFirings(s: State, times: seq<int>): (t: State)
    requires Inv(s)
    ensures Inv(t)
    decreases |times|
  {
    if times == [] then s
    else
      DrainKeeps(s, times[0]);
      AfterFirings(Drain(s, times[0]), times[1..])
  }

  /** Each firing comes from an armed timer, at or after its deadline. */
  ghost predicate Firings(s: State, times: seq<int>)
    requires Inv(s)
    decreases |times|
  {
    times == [] ||
    (DrainKeeps(s, times[0]);
     s.timer.Some? && times[0] >= s.timer.value && Firings(Drain(s, times[0]), times[1..]))
  }

  /** With no new arrivals the timer fires at most 2|pending| + |leases| times, plus once per millisecond
      the clock had stepped back behind the buckets, and it is armed exactly while somebody is waiting:
      waiting ends in finitely many firings at every clock. A firing that achieves nothing still moves the
      clock, so it eats the lag. */
  lemma {:induction false} Quiescence(s: State, now: int, lag: nat, times: seq<int>)
    requires Inv(s) && !s.stopped && NotBehind(s, now + lag) && Armed(s, now)
    requires Firings(s, times)
    ensures |times| + Measure(AfterFirings(s, times)) <= Measure(s) + lag
    ensures AfterFirings(s, times).timer == None <==> AfterFirings(s, times).pending == []
    decreases |times|
  {
    hide Inv, Drain, Measure, NotBehind, Due;
    if times == [] {
    } else {
      var u := times[0];
      var left := Max(0, now + lag - u);
      DrainMeasure(s, u);
      DrainArms(s, u);
      if u >= s.timer.value + lag { FireProgress(s, now, lag, u); }
      LagLeft(s, now, lag, u);
      Quiescence(Drain(s, u), u, left, times[1..]);
    }
  }

  lemma LagLeft(s: State, now: int, lag: nat, u: int)
    requires Armed(s, now) && NotBehind(s, now + lag) && s.timer.Some? && u >= s.timer.value
    ensures NotBehind(s, u + Max(0, now + lag - u))
    ensures u > now && Max(0, now + lag - u) <= Max(0, lag - 1)
    ensures u >= s.timer.value + lag ==> u >= now + lag
  {
  }

  /** Some lag always bounds how far the buckets are ahead of a clock. */
  lemma LagExists(s: State, now: int) returns (lag: nat)
    ensures NotBehind(s, now + lag)
  {
    lag := LagOver(s, now, s.endpoints.Keys);
  }

  lemma {:induction false} LagOver(s: State, now: int, keys: set<Key>) returns (lag: nat)
    requires keys <= s.endpoints.Keys
    ensures forall k | k in keys :: LastOf(s.endpoints[k]) <= now + lag
    decreases keys
  {
    if keys == {} {
      lag := 0;
    } else {
      var k :| k in keys;
      var rest := LagOver(s, now, keys - {k});
      lag := Max(rest, Max(0, LastOf(s.endpoints[k]) - now));
      forall j | j in keys ensures LastOf(s.endpoints[j]) <= now + lag {
        if j != k { assert j in keys - {k}; }
      }
    }
  }

  /** The later refill time of an endpoint's buckets. */
  function LastOf(e: Endpoint): int { if e.gap.Some? then Max(e.total.last, e.gap.value.last) else e.total.last }

  /** After the clock stepped back, one firing that makes up the lag brings back the situation in which
      every later firing makes progress. */
  lemma CatchUp(s: State, now: int, lag: nat, u: int)
    requires Inv(s) && !s.stopped && NotBehind(s, now + lag) && Armed(s, now)
    requires s.timer.Some? && u >= s.timer.value + lag
    ensures Sane(s)
    ensures var t := Drain(s, u); Inv(t) && !t.stopped && NotBehind(t, u) && Armed(t, u) && Measure(t) < Measure(s)
  {
    hide Inv, Drain, Armed, NotBehind;
    FireProgress(s, now, lag, u);
    LagLeft(s, now, lag, u);
    DrainArms(s, u);
  }

  /** One endpoint that was drained at reading 5000, with one request accepted after the clock went back to 0. */
  ghost const STEPPED_BACK := State(Disabled, 1000, map["k" := Endpoint(Bucket(Limited(1.0, 1), 0.0, 5000), None)],
                                    [Request(0, "r", "k", Main, WAIT_MS)], map[], 0, Some(1000), false, 1, [])

  /** Without the lag a firing at its deadline can achieve nothing. */
  lemma StepBackStalls()
    ensures var s := STEPPED_BACK;
            && Inv(s) && !s.stopped && Armed(s, 0) && s.timer == Some(1000)
            && Measure(Drain(s, 1000)) == Measure(s)
  {
    var s := STEPPED_BACK;
    StalledState();
    StalledTimer();
    DrainMeasure(s, 1000);
    StalledWaiter();
  }

  lemma StalledState()
    ensures Inv(STEPPED_BACK) && Sane(STEPPED_BACK)
  {
    assert GapLeases(map[]) == {};
  }

  lemma StalledTimer()
    ensures Sane(STEPPED_BACK) && Armed(STEPPED_BACK, 0)
  {
    StalledState();
    var s := STEPPED_BACK;
    var r := s.pending[0];
    WaitInsufficientAfterStepBack();
    assert MaxWait(s, r, 0) == 1000;
    assert r in s.pending;
    assert Delays(s, 0) == {WAIT_MS, 1000};
    assert IsLeast(Delays(s, 0), 1000);
  }

  lemma StalledWaiter()
    ensures !Due(STEPPED_BACK, 1000)
  {
    var s := STEPPED_BACK;
    assert forall r :: r in s.pending ==> !Grantable(s, r, 1000);
  }
}

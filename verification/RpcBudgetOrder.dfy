/** What one drain at a fixed reading guarantees: nothing grantable is left, the preferred class goes first. */
module RpcBudgetOrder {
  import opened Common
  import opened TokenBucket
  import opened RpcBudgetModel
  import opened RpcBudgetSafety

  // ---------------------------------------------------------------- readiness at a fixed clock

  /** Refilling buckets at this clock reading changes no later answer at the same reading. */
  lemma TouchReady(s: State, totals: set<Key>, gaps: set<Key>, now: int, r: Request)
    ensures
      var t := s.(endpoints := TouchGaps(TouchTotals(s.endpoints, totals, now), gaps, now));
      && TotalReady(t, r, now) == TotalReady(s, r, now)
      && GapReady(t, r, now) == GapReady(s, r, now)
  {
    if r.key in s.endpoints {
      RefillIdempotent(s.endpoints[r.key].total, now);
      if s.endpoints[r.key].gap.Some? { RefillIdempotent(s.endpoints[r.key].gap.value, now); }
    }
  }

  lemma ScanGrantable(s: State, now: int, r: Request)
    ensures Grantable(Scan(s, now), r, now) == Grantable(s, r, now)
    ensures TotalReady(Scan(s, now), r, now) == TotalReady(s, r, now)
  {
    TouchReady(s, KeysOf(s.pending), ConsultedGaps(s, now), now, r);
  }

  lemma ArmGrantable(s: State, now: int, r: Request)
    requires Sane(s)
    ensures Grantable(Arm(s, now), r, now) == Grantable(s, r, now)
  {
    NoTotals(s.endpoints, now);
    TouchReady(s, {}, RearmGaps(s, s.pending), now, r);
  }

  lemma SpendUnready(b: Bucket, now: int)
    requires Ready(TryAcquire(b, now), now)
    ensures Ready(b, now)
  {
    RefillIdempotent(b, now);
  }

  /** A grant never makes another request grantable. */
  lemma GrantUnready(s: State, i: nat, now: int, r: Request)
    requires i < |s.pending| && s.pending[i].key in s.endpoints
    requires Grantable(Grant(s, i, now), r, now)
    ensures Grantable(s, r, now)
  {
    if r.key == s.pending[i].key {
      var e := s.endpoints[r.key];
      SpendUnready(e.total, now);
      if e.gap.Some? && s.pending[i].work.GapRepair? && r.work.GapRepair? { SpendUnready(e.gap.value, now); }
    }
  }

  /** The loop stops exactly when no waiter is grantable. */
  lemma PickStops(s: State, now: int)
    ensures Pick(s, now) == |s.pending| <==> forall r :: r in s.pending ==> !Grantable(s, r, now)
  {
    if Pick(s, now) < |s.pending| {
      assert s.pending[Pick(s, now)] in s.pending;
      if Pick(s, now) == NextMain(s, now) && MainGrantable(s, s.pending[NextMain(s, now)], now) {
      } else {
        assert Pick(s, now) == NextGap(s, now);
      }
    } else {
      assert forall j :: 0 <= j < |s.pending| ==> !MainGrantable(s, s.pending[j], now);
      assert CanStartGap(s) ==> forall j :: 0 <= j < |s.pending| ==> !GapGrantable(s, s.pending[j], now);
    }
  }

  // ---------------------------------------------------------------- work conservation

  ghost predicate NothingGrantable(s: State, now: int) {
    forall r :: r in s.pending ==> !Grantable(s, r, now)
  }

  ghost predicate Unexpired(s: State, now: int) {
    forall r :: r in s.pending ==> r.expiresAt > now
  }

  ghost predicate LeasesLive(s: State, now: int) {
    forall id :: id in s.leases ==> s.leases[id].expiresAt > now
  }

  lemma {:induction false} ExpireExpires(s: State, now: int)
    ensures Unexpired(Expire(s, now), now)
    ensures Expire(s, now).leases == s.leases && Expire(s, now).stopped == s.stopped
    decreases |s.pending|
  {
    var i := FirstExpired(s, now);
    if i < |s.pending| { ExpireExpires(Defer(s, i), now); }
  }

  lemma {:induction false} GrantAllConserves(s: State, now: int)
    requires Configured(s) && Sane(s) && Unexpired(s, now) && LeasesLive(s, now)
    ensures var t := GrantAll(s, now); NothingGrantable(t, now) && Unexpired(t, now) && LeasesLive(t, now)
    decreases |s.pending|
  {
    var i, c := Pick(s, now), Scan(s, now);
    ScanSane(s, now);
    if i < |s.pending| {
      GrantSane(c, i, now);
      GrantConfigured(s, i, now);
      var t := Grant(c, i, now);
      assert forall r :: r in t.pending ==> r in s.pending;
      GrantAllConserves(t, now);
    } else {
      PickStops(s, now);
      forall r | r in c.pending ensures !Grantable(c, r, now) { ScanGrantable(s, now, r); }
    }
  }

  lemma GrantConfigured(s: State, i: nat, now: int)
    requires Configured(s) && i < |s.pending|
    ensures s.pending[i].key in s.endpoints && Configured(Grant(Scan(s, now), i, now))
  {
    var c := Scan(s, now);
    assert s.pending[i] in s.pending;
    TouchedOk(s.endpoints, KeysOf(s.pending), ConsultedGaps(s, now), now, s.gap);
    SpentOk(c.endpoints[s.pending[i].key], s.pending[i].work, now, s.gap);
    var t := Grant(c, i, now);
    assert forall r :: r in t.pending ==> r in s.pending;
  }

  lemma SweptFresh(s: State, now: int)
    requires Sane(s)
    ensures Unexpired(Swept(s, now), now) && LeasesLive(Swept(s, now), now)
  {
    ExpireExpires(Reclaim(s, now), now);
  }

  lemma ArmConserves(s: State, now: int)
    requires Sane(s) && NothingGrantable(s, now)
    ensures NothingGrantable(Arm(s, now), now)
  {
    forall r | r in s.pending ensures !Grantable(Arm(s, now), r, now) { ArmGrantable(s, now, r); }
  }

  /** Work conservation: after a drain no waiter is grantable or expired, and no lease has lapsed. */
  lemma DrainConserves(s: State, now: int)
    requires Inv(s) && !s.stopped
    ensures Sane(s)
    ensures var t := Drain(s, now); NothingGrantable(t, now) && Unexpired(t, now) && LeasesLive(t, now)
  {
    InvSane(s);
    SweptKeeps(s, now);
    SweptFresh(s, now);
    var b := Swept(s, now);
    GrantAllConserves(b, now);
    ArmConserves(GrantAll(b, now), now);
  }

  // ---------------------------------------------------------------- priority

  /** Unlimited gap work yields to main work; a limited reservation is claimed ahead of main work. */
  function Preferred(gap: GapAllocation): Work {
    if gap.UnlimitedGap? then Main else GapRepair
  }

  ghost predicate NoneReady(s: State, w: Work, now: int) {
    forall r :: r in s.pending && r.work == w ==> !Grantable(s, r, now)
  }

  /** Settlements from n on: once the other class is granted, the preferred class is not granted again. */
  ghost predicate PreferredFirst(settled: seq<Outcome>, n: nat, w: Work) {
    forall i, j | n <= i < j < |settled| && settled[i].Granted? && settled[j].Granted? ::
      settled[i].work != w ==> settled[j].work != w
  }

  ghost predicate NoneGranted(settled: seq<Outcome>, n: nat, w: Work) {
    forall i | n <= i < |settled| && settled[i].Granted? :: settled[i].work != w
  }

  lemma PickPrefers(s: State, now: int)
    requires Pick(s, now) < |s.pending| && s.pending[Pick(s, now)].work != Preferred(s.gap)
    ensures NoneReady(s, Preferred(s.gap), now)
  {
    if s.gap.UnlimitedGap? {
      assert NextMain(s, now) == |s.pending|;
      assert forall j :: 0 <= j < |s.pending| ==> !MainGrantable(s, s.pending[j], now);
    } else {
      assert NextGap(s, now) == |s.pending|;
      assert CanStartGap(s) ==> forall j :: 0 <= j < |s.pending| ==> !GapGrantable(s, s.pending[j], now);
    }
  }

  lemma PickReady(s: State, now: int)
    requires Pick(s, now) < |s.pending|
    ensures Grantable(s, s.pending[Pick(s, now)], now)
  {
    assert Pick(s, now) == NextMain(s, now) || Pick(s, now) == NextGap(s, now);
  }

  lemma NoneReadyKept(s: State, i: nat, w: Work, now: int)
    requires Sane(s) && i < |s.pending| && NoneReady(s, w, now)
    ensures s.pending[i].key in s.endpoints && NoneReady(Grant(Scan(s, now), i, now), w, now)
  {
    assert s.pending[i] in s.pending;
    var c := Scan(s, now);
    var t := Grant(c, i, now);
    forall r | r in t.pending && r.work == w ensures !Grantable(t, r, now) {
      assert r in s.pending;
      ScanGrantable(s, now, r);
      if Grantable(t, r, now) { GrantUnready(c, i, now, r); }
    }
  }

  /** Unlimited gap work is granted on an endpoint only when no main request waits for that endpoint. */
  ghost predicate GapYields(t: State, n: nat) {
    forall i: int, r: Request | n <= i < |t.settled| && r in t.pending ::
      SameLane(t.settled[i], r.key, GapRepair) ==> !r.work.Main?
  }

  /** t was reached from s by grants and deferrals only. */
  ghost predicate Extends(s: State, t: State) {
    && t.gap == s.gap
    && s.settled <= t.settled
    && forall r :: r in t.pending ==> r in s.pending
  }

  lemma GrantExtends(s: State, i: nat, now: int)
    requires Sane(s) && i < |s.pending|
    ensures s.pending[i].key in s.endpoints
    ensures
      var g := Grant(Scan(s, now), i, now);
      Extends(s, g) && g.settled == s.settled + [Granted(s.pending[i].ticket, s.pending[i].key, s.pending[i].work)]
  {
    assert s.pending[i] in s.pending;
    var g := Grant(Scan(s, now), i, now);
    assert forall r :: r in g.pending ==> r in s.pending;
  }

  lemma {:induction false} GrantAllExtends(s: State, now: int)
    requires Sane(s)
    ensures Extends(s, GrantAll(s, now))
    decreases |s.pending|
  {
    var i := Pick(s, now);
    ScanSane(s, now);
    if i < |s.pending| {
      GrantSane(Scan(s, now), i, now);
      GrantExtends(s, i, now);
      GrantAllExtends(Grant(Scan(s, now), i, now), now);
    }
  }

  lemma ScanFields(s: State, now: int)
    ensures Scan(s, now).pending == s.pending && Scan(s, now).settled == s.settled
  {
  }

  lemma GrantShrinks(s: State, i: nat, now: int)
    requires i < |s.pending| && s.pending[i].key in Scan(s, now).endpoints
    ensures |Grant(Scan(s, now), i, now).pending| == |s.pending| - 1
  {
  }

  lemma {:induction false} GrantAllSkips(s: State, w: Work, now: int)
    requires Sane(s) && NoneReady(s, w, now)
    ensures NoneGranted(GrantAll(s, now).settled, |s.settled|, w)
    decreases |s.pending|
  {
    hide Sane, Scan, Pick, Grant, Grantable;
    var i := Pick(s, now);
    ScanFields(s, now);
    ScanSane(s, now);
    if i < |s.pending| {
      GrantSane(Scan(s, now), i, now);
      GrantExtends(s, i, now);
      GrantShrinks(s, i, now);
      var g := Grant(Scan(s, now), i, now);
      PickReady(s, now);
      assert s.pending[i] in s.pending;
      NoneReadyKept(s, i, w, now);
      GrantAllSkips(g, w, now);
      GrantAllExtends(g, now);
      assert GrantAll(s, now).settled[|s.settled|] == g.settled[|s.settled|];
    }
  }

  lemma {:induction false} GrantAllPrefers(s: State, now: int)
    requires Sane(s)
    ensures PreferredFirst(GrantAll(s, now).settled, |s.settled|, Preferred(s.gap))
    decreases |s.pending|
  {
    var i := Pick(s, now);
    ScanSane(s, now);
    if i < |s.pending| {
      GrantSane(Scan(s, now), i, now);
      GrantExtends(s, i, now);
      var g := Grant(Scan(s, now), i, now);
      GrantAllPrefers(g, now);
      GrantAllExtends(g, now);
      if s.pending[i].work != Preferred(s.gap) {
        PickPrefers(s, now);
        NoneReadyKept(s, i, Preferred(s.gap), now);
        GrantAllSkips(g, Preferred(s.gap), now);
      }
      PreferredStep(s.settled, g.settled[|s.settled|], GrantAll(g, now).settled, Preferred(s.gap));
    }
  }

  lemma PreferredStep(before: seq<Outcome>, o: Outcome, after: seq<Outcome>, w: Work)
    requires before + [o] <= after && o.Granted?
    requires PreferredFirst(after, |before| + 1, w)
    requires o.work != w ==> NoneGranted(after, |before| + 1, w)
    ensures PreferredFirst(after, |before|, w)
  {
    assert after[|before|] == (before + [o])[|before|];
  }

  lemma GapPickYields(s: State, now: int, r: Request)
    requires Sane(s) && s.gap.UnlimitedGap? && Pick(s, now) < |s.pending|
    requires s.pending[Pick(s, now)].work.GapRepair? && r in s.pending && r.key == s.pending[Pick(s, now)].key
    ensures !r.work.Main?
  {
    PickReady(s, now);
    PickPrefers(s, now);
  }

  lemma {:induction false} GrantAllYields(s: State, now: int)
    requires Sane(s) && s.gap.UnlimitedGap?
    ensures GapYields(GrantAll(s, now), |s.settled|)
    decreases |s.pending|
  {
    var i := Pick(s, now);
    ScanSane(s, now);
    if i < |s.pending| {
      GrantSane(Scan(s, now), i, now);
      GrantExtends(s, i, now);
      var g := Grant(Scan(s, now), i, now);
      GrantAllYields(g, now);
      GrantAllExtends(g, now);
      var t := GrantAll(g, now);
      if s.pending[i].work.GapRepair? {
        forall r | r in t.pending && r.key == s.pending[i].key ensures !r.work.Main? {
          GapPickYields(s, now, r);
        }
      }
      YieldStep(s.settled, g.settled[|s.settled|], t);
    }
  }

  lemma YieldStep(before: seq<Outcome>, o: Outcome, t: State)
    requires before + [o] <= t.settled && GapYields(t, |before| + 1)
    requires o.Granted? && o.work.GapRepair? ==> forall r :: r in t.pending && r.key == o.key ==> !r.work.Main?
    ensures GapYields(t, |before|)
  {
    assert t.settled[|before|] == (before + [o])[|before|];
  }

  lemma {:induction false} ExpireDefers(s: State, now: int)
    ensures
      var t := Expire(s, now);
      && t.gap == s.gap
      && s.settled <= t.settled
      && forall i | |s.settled| <= i < |t.settled| :: t.settled[i].Deferred?
    decreases |s.pending|
  {
    hide FirstExpired;
    var i := FirstExpired(s, now);
    if i < |s.pending| { ExpireDefers(Defer(s, i), now); }
  }

  lemma SweptDefers(s: State, now: int)
    requires Sane(s)
    ensures
      var t := Swept(s, now);
      && t.gap == s.gap && s.settled <= t.settled
      && forall i | |s.settled| <= i < |t.settled| :: t.settled[i].Deferred?
  {
    ExpireDefers(Reclaim(s, now), now);
  }

  /** Deferrals in front of the grants change nothing about their order. */
  lemma ExpiryPrefix(before: seq<Outcome>, middle: seq<Outcome>, t: State, w: Work)
    requires before <= middle <= t.settled
    requires forall i | |before| <= i < |middle| :: middle[i].Deferred?
    requires PreferredFirst(t.settled, |middle|, w)
    ensures PreferredFirst(t.settled, |before|, w)
    ensures GapYields(t, |middle|) ==> GapYields(t, |before|)
  {
    assert forall i | |before| <= i < |middle| :: t.settled[i] == middle[i];
  }

  lemma ServedPrefers(s: State, now: int)
    requires Sane(s)
    ensures
      var c := GrantAll(Swept(s, now), now);
      && s.settled <= c.settled
      && PreferredFirst(c.settled, |s.settled|, Preferred(s.gap))
      && (s.gap.UnlimitedGap? ==> GapYields(c, |s.settled|))
  {
    SweptDefers(s, now);
    var b := Swept(s, now);
    GrantAllExtends(b, now);
    GrantAllPrefers(b, now);
    if s.gap.UnlimitedGap? { GrantAllYields(b, now); }
    ExpiryPrefix(s.settled, b.settled, GrantAll(b, now), Preferred(s.gap));
  }

  lemma ArmSettled(s: State, now: int, n: nat)
    requires Sane(s)
    ensures Arm(s, now).settled == s.settled
    ensures GapYields(s, n) ==> GapYields(Arm(s, now), n)
  {
  }

  /** Within one drain every grant of the preferred class precedes every grant of the other class, and
      unlimited gap work never passes a main request waiting for the same endpoint. */
  lemma DrainPrefers(s: State, now: int)
    requires Inv(s) && !s.stopped
    ensures Sane(s)
    ensures
      var t := Drain(s, now);
      && s.settled <= t.settled
      && PreferredFirst(t.settled, |s.settled|, Preferred(s.gap))
      && (s.gap.UnlimitedGap? ==> GapYields(t, |s.settled|))
  {
    InvSane(s);
    ServedPrefers(s, now);
    ArmSettled(GrantAll(Swept(s, now), now), now, |s.settled|);
  }
}

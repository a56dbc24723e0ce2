/** Rate bounds over every run and window, proved with each bucket's level as a potential. */
module RpcBudgetRate {
  import opened Common
  import opened TokenBucket
  import opened RpcBudgetModel
  import opened RpcBudgetSafety
  import opened RpcBudgetOrder

  /** Grants recorded for an endpoint. */
  ghost function Grants(settled: seq<Outcome>, key: Key): nat {
    if settled == [] then 0
    else
      var o := settled[|settled| - 1];
      Grants(settled[..|settled| - 1], key) + (if o.Granted? && o.key == key then 1 else 0)
  }

  /** Gap grants recorded for an endpoint. */
  ghost function GapGrants(settled: seq<Outcome>, key: Key): nat {
    if settled == [] then 0
    else
      var o := settled[|settled| - 1];
      GapGrants(settled[..|settled| - 1], key) + (if SameLane(o, key, GapRepair) then 1 else 0)
  }

  lemma GrantsSnoc(settled: seq<Outcome>, o: Outcome, key: Key)
    ensures Grants(settled + [o], key) == Grants(settled, key) + (if o.Granted? && o.key == key then 1 else 0)
    ensures GapGrants(settled + [o], key) == GapGrants(settled, key) + (if SameLane(o, key, GapRepair) then 1 else 0)
  {
    assert (settled + [o])[..|settled|] == settled;
  }

  /** One bucket paid for n admissions on the way from b to c. */
  ghost predicate Paid(b: Bucket, c: Bucket, n: int) {
    && b.limit == c.limit
    && b.last <= c.last
    && (b.limit.Limited? ==> n as real * (1.0 - SLACK) <= Level(b) - Level(c))
  }

  ghost predicate PaidEndpoint(e: Endpoint, f: Endpoint, n: int, g: int) {
    && Paid(e.total, f.total, n)
    && (e.gap.Some? <==> f.gap.Some?)
    && (e.gap.Some? ==> Paid(e.gap.value, f.gap.value, g))
  }

  /** Everything granted between s and t was paid for by the endpoint's own buckets. */
  ghost predicate PaidFor(s: State, t: State) {
    && s.gap == t.gap
    && s.endpoints.Keys == t.endpoints.Keys
    && forall k :: k in s.endpoints ==>
         PaidEndpoint(s.endpoints[k], t.endpoints[k],
                      Grants(t.settled, k) - Grants(s.settled, k),
                      GapGrants(t.settled, k) - GapGrants(s.settled, k))
  }

  lemma PaidTrans(s: State, t: State, u: State)
    requires PaidFor(s, t) && PaidFor(t, u)
    ensures PaidFor(s, u)
  {
    forall k | k in s.endpoints
      ensures PaidEndpoint(s.endpoints[k], u.endpoints[k],
                           Grants(u.settled, k) - Grants(s.settled, k),
                           GapGrants(u.settled, k) - GapGrants(s.settled, k))
    {
      var e, f, g := s.endpoints[k], t.endpoints[k], u.endpoints[k];
      assert PaidEndpoint(e, f, Grants(t.settled, k) - Grants(s.settled, k),
                          GapGrants(t.settled, k) - GapGrants(s.settled, k));
      assert PaidEndpoint(f, g, Grants(u.settled, k) - Grants(t.settled, k),
                          GapGrants(u.settled, k) - GapGrants(t.settled, k));
    }
  }

  lemma RefillPaid(b: Bucket, now: int)
    requires Valid(b)
    ensures Paid(b, Refill(b, now), 0)
  {
    RefillLevel(b, now);
    RefillGrows(b, now);
  }

  lemma TakePaid(b: Bucket, now: int)
    requires Valid(b) && Ready(b, now)
    ensures Paid(b, TryAcquire(b, now), 1)
  {
    RefillGrows(b, now);
    if b.limit.Limited? { TakeLevel(b, now); }
  }

  lemma TouchPaid(s: State, totals: set<Key>, gaps: set<Key>, now: int)
    requires Configured(s)
    ensures PaidFor(s, s.(endpoints := TouchGaps(TouchTotals(s.endpoints, totals, now), gaps, now)))
  {
    hide Grants, GapGrants, Level;
    forall k | k in s.endpoints
      ensures
        var ts := TouchGaps(TouchTotals(s.endpoints, totals, now), gaps, now);
        PaidEndpoint(s.endpoints[k], ts[k], 0, 0)
    {
      RefillPaid(s.endpoints[k].total, now);
      if s.endpoints[k].gap.Some? { RefillPaid(s.endpoints[k].gap.value, now); }
    }
  }

  lemma ScanPaid(s: State, now: int)
    requires Inv(s)
    ensures PaidFor(s, Scan(s, now))
  {
    TouchPaid(s, KeysOf(s.pending), ConsultedGaps(s, now), now);
  }

  lemma DeferPaid(s: State, i: nat)
    requires i < |s.pending|
    ensures PaidFor(s, Defer(s, i))
  {
    forall k | k in s.endpoints ensures PaidEndpoint(s.endpoints[k], s.endpoints[k], 0, 0) {}
    forall k ensures Grants(Defer(s, i).settled, k) == Grants(s.settled, k)
                  && GapGrants(Defer(s, i).settled, k) == GapGrants(s.settled, k)
    {
      GrantsSnoc(s.settled, Deferred(s.pending[i].ticket), k);
    }
  }

  /** The two `tryAcquire` results that the loop discards are always successes, so a grant is always paid. */
  lemma GrantPaid(s: State, i: nat, now: int)
    requires Configured(s) && i < |s.pending| && Grantable(s, s.pending[i], now)
    ensures PaidFor(s, Grant(s, i, now))
  {
    var r := s.pending[i];
    forall k | k in s.endpoints
      ensures
        var t := Grant(s, i, now);
        PaidEndpoint(s.endpoints[k], t.endpoints[k],
                     Grants(t.settled, k) - Grants(s.settled, k),
                     GapGrants(t.settled, k) - GapGrants(s.settled, k))
    {
      GrantsSnoc(s.settled, Granted(r.ticket, r.key, r.work), k);
      if k == r.key {
        TakePaid(s.endpoints[k].total, now);
        if r.work.GapRepair? && s.endpoints[k].gap.Some? { TakePaid(s.endpoints[k].gap.value, now); }
      }
    }
  }

  lemma {:induction false} ExpirePaid(s: State, now: int)
    ensures PaidFor(s, Expire(s, now))
    decreases |s.pending|
  {
    var i := FirstExpired(s, now);
    if i < |s.pending| {
      DeferPaid(s, i);
      ExpirePaid(Defer(s, i), now);
      PaidTrans(s, Defer(s, i), Expire(s, now));
    }
  }

  lemma {:induction false} DeferAllPaid(s: State)
    ensures PaidFor(s, DeferAll(s))
    decreases |s.pending|
  {
    if s.pending != [] {
      DeferPaid(s, 0);
      DeferAllPaid(Defer(s, 0));
      PaidTrans(s, Defer(s, 0), DeferAll(s));
    }
  }

  lemma {:induction false} GrantAllPaid(s: State, now: int)
    requires Inv(s) && Sane(s) && !s.stopped
    ensures PaidFor(s, GrantAll(s, now))
    decreases |s.pending|
  {
    hide PaidFor, Inv, Sane;
    var i, c := Pick(s, now), Scan(s, now);
    ScanPaid(s, now);
    ScanSane(s, now);
    if i < |s.pending| {
      GrantStep(s, now);
      GrantStepPaid(s, now);
      GrantAllPaid(Grant(c, i, now), now);
      PaidTrans(s, Grant(c, i, now), GrantAll(s, now));
    }
  }

  lemma GrantStepPaid(s: State, now: int)
    requires Inv(s) && Sane(s) && Pick(s, now) < |s.pending|
    ensures
      var c := Scan(s, now);
      c.pending[Pick(s, now)].key in c.endpoints && PaidFor(s, Grant(c, Pick(s, now), now))
  {
    var i, c := Pick(s, now), Scan(s, now);
    ScanPaid(s, now);
    PickOldest(s, now);
    ScanGrantable(s, now, s.pending[i]);
    ScanKeeps(s, now);
    GrantPaid(c, i, now);
    PaidTrans(s, c, Grant(c, i, now));
  }

  lemma ArmPaid(s: State, now: int)
    requires Configured(s) && Sane(s)
    ensures PaidFor(s, Arm(s, now))
  {
    NoTotals(s.endpoints, now);
    TouchPaid(s, {}, RearmGaps(s, s.pending), now);
    PaidRest(s, s, s.(endpoints := Arm(s, now).endpoints), Arm(s, now));
  }

  /** Only the buckets, the settlements and the allocation matter. */
  lemma PaidRest(s: State, s': State, t: State, t': State)
    requires PaidFor(s, t)
    requires s.gap == s'.gap && s.endpoints == s'.endpoints && s.settled == s'.settled
    requires t.gap == t'.gap && t.endpoints == t'.endpoints && t.settled == t'.settled
    ensures PaidFor(s', t')
  {
  }

  lemma DrainPaid(s: State, now: int)
    requires Inv(s)
    ensures Sane(s) && PaidFor(s, Drain(s, now))
  {
    InvSane(s);
    if s.stopped {
      StoppedPaid(s);
    } else {
      SweptKeeps(s, now);
      SweptPaid(s, now);
      var b := Swept(s, now);
      GrantAllKeeps(b, now);
      GrantAllPaid(b, now);
      var c := GrantAll(b, now);
      PaidTrans(s, b, c);
      ArmPaid(c, now);
      PaidTrans(s, c, Arm(c, now));
    }
  }

  lemma SweptPaid(s: State, now: int)
    requires Sane(s)
    ensures PaidFor(s, Swept(s, now))
  {
    ExpirePaid(Reclaim(s, now), now);
    PaidRest(Reclaim(s, now), s, Swept(s, now), Swept(s, now));
  }

  lemma StoppedPaid(s: State)
    ensures PaidFor(s, s.(timer := None))
  {
    forall k | k in s.endpoints ensures PaidEndpoint(s.endpoints[k], s.endpoints[k], 0, 0) {}
  }

  lemma CancelPaid(s: State, id: Id, now: int)
    requires Inv(s)
    ensures Sane(s) && PaidFor(s, Apply(s, Cancel(id, now)))
  {
    hide PaidFor, Inv, Drain, DropLease;
    InvSane(s);
    var i := First(s.pending, (r: Request) => r.id == id);
    if i < |s.pending| {
      SettleKeeps(s, i, Deferred(s.pending[i].ticket));
      DeferPaid(s, i);
      ReleasePaid(Defer(s, i), id, now);
      PaidTrans(s, Defer(s, i), Apply(s, Cancel(id, now)));
    } else {
      ReleasePaid(s, id, now);
    }
  }

  lemma ReleasePaid(s: State, id: Id, now: int)
    requires Inv(s)
    ensures Sane(DropLease(s, id)) && PaidFor(s, Drain(DropLease(s, id), now))
  {
    hide PaidFor, Inv, Drain;
    DropLeaseKeeps(s, id);
    DrainPaidFrom(s, DropLease(s, id), now);
  }

  lemma DrainPaidFrom(s: State, t: State, now: int)
    requires Inv(t) && s.gap == t.gap && s.endpoints == t.endpoints && s.settled == t.settled
    ensures Sane(t) && PaidFor(s, Drain(t, now))
  {
    DrainPaid(t, now);
    var u := Drain(t, now);
    PaidRest(t, s, u, u);
  }

  lemma AcquirePaid(s: State, id: Id, key: Key, work: Work, now: int)
    requires Inv(s)
    ensures Sane(s) && PaidFor(s, Apply(s, Acquire(id, key, work, now)))
  {
    InvSane(s);
    if Accepts(s, id, key, work) {
      EnqueueKeeps(s, id, key, work, now);
      DrainPaidFrom(s, Enqueue(s, id, key, work, now), now);
    } else {
      StoppedPaid(s);
    }
  }

  lemma ApplyPaid(s: State, step: Step)
    requires Inv(s)
    ensures Sane(s) && PaidFor(s, Apply(s, step))
  {
    hide PaidFor, Inv, Drain, DropLease, DropWaiter, DeferAll;
    InvSane(s);
    match step
    case Acquire(id, key, work, now) => AcquirePaid(s, id, key, work, now);
    case Cancel(id, now) => CancelPaid(s, id, now);
    case Release(id, now) => ReleasePaid(s, id, now);
    case Fire(now) => DrainPaid(s, now);
    case Stop =>
      InvSane(s);
      DeferAllPaid(s);
      PaidRest(s, s, DeferAll(s), Halt(s));
  }

  lemma {:induction false} RunPaid(s: State, steps: seq<Step>)
    requires Inv(s)
    ensures PaidFor(s, Run(s, steps))
    decreases |steps|
  {
    if steps != [] {
      ApplyKeeps(s, steps[0]);
      ApplyPaid(s, steps[0]);
      RunPaid(Apply(s, steps[0]), steps[1..]);
      PaidTrans(s, Apply(s, steps[0]), Run(s, steps));
    }
  }

  /** n admissions fit in the burst plus the rate times the growth of the refill time. */
  ghost predicate WithinRate(b: Bucket, c: Bucket, n: int) {
    && b.limit.Limited?
    && b.last <= c.last
    && n as real * (1.0 - SLACK) <= b.limit.burst as real + b.limit.rate * ((c.last - b.last) as real / 1000.0)
  }

  lemma PaidBound(b: Bucket, c: Bucket, n: int)
    requires Valid(b) && Valid(c) && b.limit.Limited? && Paid(b, c, n)
    ensures WithinRate(b, c, n)
  {
    LevelDrop(b, c);
  }

  lemma TotalWithinRate(s: State, t: State, k: Key)
    requires Configured(s) && Configured(t) && PaidFor(s, t) && k in s.endpoints
    ensures k in t.endpoints
    ensures s.endpoints[k].total.limit.Limited? ==>
              WithinRate(s.endpoints[k].total, t.endpoints[k].total, Grants(t.settled, k) - Grants(s.settled, k))
  {
    if s.endpoints[k].total.limit.Limited? {
      PaidBound(s.endpoints[k].total, t.endpoints[k].total, Grants(t.settled, k) - Grants(s.settled, k));
    }
  }

  lemma GapWithinRate(s: State, t: State, k: Key)
    requires Configured(s) && Configured(t) && PaidFor(s, t) && k in s.endpoints && s.gap.LimitedGap?
    ensures k in t.endpoints && s.endpoints[k].gap.Some? && t.endpoints[k].gap.Some?
    ensures s.endpoints[k].gap.value.limit == Limited(s.gap.rate, 1)
    ensures WithinRate(s.endpoints[k].gap.value, t.endpoints[k].gap.value,
                       GapGrants(t.settled, k) - GapGrants(s.settled, k))
  {
    PaidBound(s.endpoints[k].gap.value, t.endpoints[k].gap.value, GapGrants(t.settled, k) - GapGrants(s.settled, k));
  }

  /** Over any window of any run, an endpoint never admits more than its burst plus its rate times the
      growth of its refill time; a clock that steps back buys nothing. */
  lemma EndpointRateBound(s: State, steps: seq<Step>, k: Key)
    requires Inv(s) && k in s.endpoints && s.endpoints[k].total.limit.Limited?
    ensures k in Run(s, steps).endpoints
    ensures WithinRate(s.endpoints[k].total, Run(s, steps).endpoints[k].total,
                       Grants(Run(s, steps).settled, k) - Grants(s.settled, k))
  {
    RunPaid(s, steps);
    TotalWithinRate(s, Run(s, steps), k);
  }

  /** Limited gap work additionally stays within one request plus the gap rate, per endpoint. */
  lemma GapRateBound(s: State, steps: seq<Step>, k: Key)
    requires Inv(s) && k in s.endpoints && s.gap.LimitedGap?
    ensures k in Run(s, steps).endpoints
    ensures s.endpoints[k].gap.Some? && Run(s, steps).endpoints[k].gap.Some?
    ensures s.endpoints[k].gap.value.limit == Limited(s.gap.rate, 1)
    ensures WithinRate(s.endpoints[k].gap.value, Run(s, steps).endpoints[k].gap.value,
                       GapGrants(Run(s, steps).settled, k) - GapGrants(s.settled, k))
  {
    RunPaid(s, steps);
    GapWithinRate(s, Run(s, steps), k);
  }
}

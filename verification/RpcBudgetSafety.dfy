/** What every step of the scheduler keeps, over every run and every clock. */
module RpcBudgetSafety {
  import opened Common
  import opened TokenBucket
  import opened RpcBudgetModel

  // ---------------------------------------------------------------- the invariant

  ghost predicate EndpointOk(e: Endpoint, gap: GapAllocation) {
    && Valid(e.total)
    && (gap.LimitedGap? <==> e.gap.Some?)
    && (gap.LimitedGap? ==>
          && Valid(e.gap.value)
          && e.gap.value.limit == Limited(gap.rate, 1)
          && (e.total.limit.Limited? ==> gap.rate < e.total.limit.rate))
  }

  ghost predicate Configured(s: State) {
    && s.leaseMs >= 1
    && (forall k :: k in s.endpoints ==> EndpointOk(s.endpoints[k], s.gap))
    && (forall r :: r in s.pending ==> r.key in s.endpoints)
  }

  /** An id is never waiting twice, and never waiting and leased at once. */
  ghost predicate IdsApart(pending: seq<Request>, leases: map<Id, Lease>) {
    && (forall i, j :: 0 <= i < j < |pending| ==> pending[i].id != pending[j].id)
    && (forall i :: 0 <= i < |pending| ==> pending[i].id !in leases)
  }

  /** The gap counter is exactly the number of gap leases and respects the allocation. */
  ghost predicate GapBounded(s: State) {
    && s.gapInFlight == |GapLeases(s.leases)|
    && (s.gap.LimitedGap? ==> s.gap.maxInFlight >= 1 && s.gapInFlight <= s.gap.maxInFlight)
    && (s.gap.Disabled? ==> s.gapInFlight == 0 && forall r :: r in s.pending ==> r.work.Main?)
  }

  /** Each accepted acquire is either still waiting or settled exactly once. */
  ghost predicate SettledOnce(accepted: nat, pending: seq<Request>, settled: seq<Outcome>) {
    && |pending| + |settled| == accepted
    && (forall i :: 0 <= i < |pending| ==> pending[i].ticket < accepted)
    && (forall i :: 0 <= i < |settled| ==> settled[i].ticket < accepted)
    && (forall i, j :: 0 <= i < j < |settled| ==> settled[i].ticket != settled[j].ticket)
    && (forall i, j :: 0 <= i < |pending| && 0 <= j < |settled| ==> pending[i].ticket != settled[j].ticket)
  }

  ghost predicate SameLane(o: Outcome, key: Key, work: Work) {
    o.Granted? && o.key == key && o.work == work
  }

  /** Waiters stand in arrival order, and each endpoint and class is granted in arrival order. */
  ghost predicate ArrivalOrder(pending: seq<Request>, settled: seq<Outcome>) {
    && (forall i, j :: 0 <= i < j < |pending| ==> pending[i].ticket < pending[j].ticket)
    && (forall i, j | 0 <= i < j < |settled| && settled[j].Granted? ::
          SameLane(settled[i], settled[j].key, settled[j].work) ==> settled[i].ticket < settled[j].ticket)
    && (forall i, j | 0 <= i < |settled| && 0 <= j < |pending| ::
          SameLane(settled[i], pending[j].key, pending[j].work) ==> settled[i].ticket < pending[j].ticket)
  }

  ghost predicate Idle(s: State) {
    s.pending == [] && s.leases == map[] && s.gapInFlight == 0 && s.timer == None
  }

  ghost predicate Inv(s: State) {
    && Configured(s)
    && IdsApart(s.pending, s.leases)
    && GapBounded(s)
    && SettledOnce(s.accepted, s.pending, s.settled)
    && ArrivalOrder(s.pending, s.settled)
    && |s.pending| <= MAX_PENDING
    && (s.stopped ==> Idle(s))
  }

  lemma InvSane(s: State)
    requires Inv(s)
    ensures Sane(s)
  {
  }

  // ---------------------------------------------------------------- elementary changes

  lemma SettleKeeps(s: State, i: nat, o: Outcome)
    requires Inv(s) && i < |s.pending| && o.ticket == s.pending[i].ticket
    requires o.Granted? ==> o.key == s.pending[i].key && o.work == s.pending[i].work
    requires o.Granted? ==> forall j :: 0 <= j < i ==>
               !(s.pending[j].key == o.key && s.pending[j].work == o.work)
    ensures Inv(Settle(s, i, o))
  {
    SettleShrinks(s, i, o);
    SettleKeepsApart(s.pending, s.leases, i);
    SettleSettlesOnce(s.accepted, s.pending, s.settled, i, o);
    SettleKeepsOrder(s.pending, s.settled, i, o);
  }

  lemma SettleShrinks(s: State, i: nat, o: Outcome)
    requires i < |s.pending|
    ensures forall r :: r in Settle(s, i, o).pending ==> r in s.pending
  {
  }

  lemma SettleKeepsApart(pending: seq<Request>, leases: map<Id, Lease>, i: nat)
    requires IdsApart(pending, leases) && i < |pending|
    ensures IdsApart(RemoveAt(pending, i), leases)
  {
  }

  lemma SettleSettlesOnce(accepted: nat, pending: seq<Request>, settled: seq<Outcome>, i: nat, o: Outcome)
    requires SettledOnce(accepted, pending, settled) && i < |pending| && o.ticket == pending[i].ticket
    requires forall a, b :: 0 <= a < b < |pending| ==> pending[a].ticket < pending[b].ticket
    ensures SettledOnce(accepted, RemoveAt(pending, i), settled + [o])
  {
    var p, q := RemoveAt(pending, i), settled + [o];
    assert forall a :: 0 <= a < |q| ==> q[a] == if a < |settled| then settled[a] else o;
  }

  lemma SettleKeepsOrder(pending: seq<Request>, settled: seq<Outcome>, i: nat, o: Outcome)
    requires ArrivalOrder(pending, settled) && i < |pending| && o.ticket == pending[i].ticket
    requires o.Granted? ==> o.key == pending[i].key && o.work == pending[i].work
    requires o.Granted? ==> forall j :: 0 <= j < i ==> !(pending[j].key == o.key && pending[j].work == o.work)
    ensures ArrivalOrder(RemoveAt(pending, i), settled + [o])
  {
    hide SameLane, RemoveAt;
    var p, q := RemoveAt(pending, i), settled + [o];
    forall a, b | 0 <= a < b < |q| && q[b].Granted? && SameLane(q[a], q[b].key, q[b].work)
      ensures q[a].ticket < q[b].ticket
    {
      assert q[a] == settled[a] && q[b] == if b < |settled| then settled[b] else o;
      GrantedBefore(pending, settled, i, o, a, b);
    }
    forall a, b | 0 <= a < |q| && 0 <= b < |p| && SameLane(q[a], p[b].key, p[b].work)
      ensures q[a].ticket < p[b].ticket
    {
      var c := if b < i then b else b + 1;
      assert p[b] == pending[c] && q[a] == if a < |settled| then settled[a] else o;
      WaitsBehind(pending, settled, i, o, a, c);
    }
    forall a, b | 0 <= a < b < |p| ensures p[a].ticket < p[b].ticket {
      assert p[a] == pending[if a < i then a else a + 1] && p[b] == pending[if b < i then b else b + 1];
    }
  }

  lemma GrantedBefore(pending: seq<Request>, settled: seq<Outcome>, i: nat, o: Outcome, a: nat, b: nat)
    requires ArrivalOrder(pending, settled) && i < |pending| && o.ticket == pending[i].ticket
    requires o.Granted? ==> o.key == pending[i].key && o.work == pending[i].work
    requires a < b <= |settled|
    requires var x := if b < |settled| then settled[b] else o; x.Granted? && SameLane(settled[a], x.key, x.work)
    ensures settled[a].ticket < (if b < |settled| then settled[b] else o).ticket
  {
    hide SameLane;
    if b == |settled| { assert SameLane(settled[a], pending[i].key, pending[i].work); }
  }

  lemma WaitsBehind(pending: seq<Request>, settled: seq<Outcome>, i: nat, o: Outcome, a: nat, c: nat)
    requires ArrivalOrder(pending, settled) && i < |pending| && o.ticket == pending[i].ticket
    requires o.Granted? ==> forall j :: 0 <= j < i ==> !(pending[j].key == o.key && pending[j].work == o.work)
    requires a <= |settled| && c < |pending| && c != i
    requires SameLane(if a < |settled| then settled[a] else o, pending[c].key, pending[c].work)
    ensures (if a < |settled| then settled[a] else o).ticket < pending[c].ticket
  {
  }

  lemma TouchKeeps(s: State, es: map<Key, Endpoint>)
    requires Inv(s)
    requires es.Keys == s.endpoints.Keys && forall k :: k in es ==> EndpointOk(es[k], s.gap)
    ensures Inv(s.(endpoints := es))
  {
  }

  lemma TouchedOk(es: map<Key, Endpoint>, totals: set<Key>, gaps: set<Key>, now: int, gap: GapAllocation)
    requires forall k :: k in es ==> EndpointOk(es[k], gap)
    ensures
      var ts := TouchGaps(TouchTotals(es, totals, now), gaps, now);
      ts.Keys == es.Keys && forall k :: k in ts ==> EndpointOk(ts[k], gap)
  {
    forall k | k in es ensures EndpointOk(TouchGaps(TouchTotals(es, totals, now), gaps, now)[k], gap) {
      RefillValid(es[k].total, now);
      if es[k].gap.Some? { RefillValid(es[k].gap.value, now); }
    }
  }

  lemma NoTotals(es: map<Key, Endpoint>, now: int)
    ensures TouchTotals(es, {}, now) == es
  {
  }

  lemma SpentOk(e: Endpoint, work: Work, now: int, gap: GapAllocation)
    requires EndpointOk(e, gap)
    ensures EndpointOk(Spend(e, work, now), gap)
  {
    RefillValid(e.total, now);
    if e.gap.Some? { RefillValid(e.gap.value, now); }
  }

  lemma ScanKeeps(s: State, now: int)
    requires Inv(s)
    ensures Inv(Scan(s, now))
  {
    TouchedOk(s.endpoints, KeysOf(s.pending), ConsultedGaps(s, now), now, s.gap);
    TouchKeeps(s, Scan(s, now).endpoints);
  }

  /** The picked request is the oldest of its endpoint and class, and gap work is picked only below the cap. */
  lemma PickOldest(s: State, now: int)
    requires Configured(s) && Pick(s, now) < |s.pending|
    ensures
      var i := Pick(s, now);
      && (s.pending[i].work.GapRepair? ==> CanStartGap(s))
      && Grantable(s, s.pending[i], now)
      && forall j :: 0 <= j < i ==> !(s.pending[j].key == s.pending[i].key && s.pending[j].work == s.pending[i].work)
  {
    var i := Pick(s, now);
    if s.pending[i].work.Main? {
      assert i == NextMain(s, now);
      assert forall j :: 0 <= j < i ==> !MainGrantable(s, s.pending[j], now);
    } else {
      assert i == NextGap(s, now);
      assert forall j :: 0 <= j < i ==> !GapGrantable(s, s.pending[j], now);
    }
  }

  lemma LeaseAdded(leases: map<Id, Lease>, id: Id, l: Lease)
    requires id !in leases
    ensures |GapLeases(leases[id := l])| == |GapLeases(leases)| + (if l.work.GapRepair? then 1 else 0)
  {
    if l.work.GapRepair? {
      assert GapLeases(leases[id := l]) == GapLeases(leases) + {id};
    } else {
      assert GapLeases(leases[id := l]) == GapLeases(leases);
    }
  }

  lemma GrantKeeps(s: State, i: nat, now: int)
    requires Inv(s) && i < |s.pending|
    requires s.pending[i].work.GapRepair? ==> CanStartGap(s)
    requires forall j :: 0 <= j < i ==>
               !(s.pending[j].key == s.pending[i].key && s.pending[j].work == s.pending[i].work)
    ensures s.pending[i].key in s.endpoints && Inv(Grant(s, i, now))
  {
    var r := s.pending[i];
    assert r in s.pending;
    SettleKeeps(s, i, Granted(r.ticket, r.key, r.work));
    LeaseAdded(s.leases, r.id, Lease(r.key, r.work, now + s.leaseMs));
    SpentOk(s.endpoints[r.key], r.work, now, s.gap);
  }

  lemma LeasesRemoved(leases: map<Id, Lease>, ids: set<Id>)
    requires ids <= leases.Keys
    ensures
      var gone := set id | id in ids && leases[id].work.GapRepair?;
      |GapLeases(leases - ids)| == |GapLeases(leases)| - |gone|
  {
    var gone := set id | id in ids && leases[id].work.GapRepair?;
    assert GapLeases(leases) == GapLeases(leases - ids) + gone;
  }

  lemma ReclaimKeeps(s: State, now: int)
    requires Inv(s) && !s.stopped
    ensures Inv(Reclaim(s, now))
  {
    var old' := Lapsed(s.leases, now);
    LeasesRemoved(s.leases, old'.Keys);
    assert GapLeases(old') == set id | id in old'.Keys && s.leases[id].work.GapRepair?;
  }

  lemma DropLeaseKeeps(s: State, id: Id)
    requires Inv(s)
    ensures Inv(DropLease(s, id))
  {
    if id in s.leases {
      var rest := s.leases - {id};
      assert rest[id := s.leases[id]] == s.leases;
      LeaseAdded(rest, id, s.leases[id]);
    }
  }

  lemma EnqueueKeepsHistory(accepted: nat, pending: seq<Request>, settled: seq<Outcome>, r: Request)
    requires SettledOnce(accepted, pending, settled) && ArrivalOrder(pending, settled) && r.ticket == accepted
    ensures SettledOnce(accepted + 1, pending + [r], settled) && ArrivalOrder(pending + [r], settled)
  {
    var p := pending + [r];
    assert forall i :: 0 <= i < |p| ==> p[i] == if i < |pending| then pending[i] else r;
  }

  lemma EnqueueKeepsApart(pending: seq<Request>, leases: map<Id, Lease>, r: Request)
    requires IdsApart(pending, leases) && r.id !in leases
    requires forall q :: q in pending ==> q.id != r.id
    ensures IdsApart(pending + [r], leases)
  {
    var p := pending + [r];
    assert forall i :: 0 <= i < |p| ==> p[i] == if i < |pending| then pending[i] else r;
    assert forall i :: 0 <= i < |pending| ==> pending[i] in pending;
  }

  lemma EnqueueKeeps(s: State, id: Id, key: Key, work: Work, now: int)
    requires Inv(s) && Accepts(s, id, key, work)
    ensures Inv(Enqueue(s, id, key, work, now))
  {
    var r := Request(s.accepted, id, key, work, now + WAIT_MS);
    EnqueueKeepsHistory(s.accepted, s.pending, s.settled, r);
    EnqueueKeepsApart(s.pending, s.leases, r);
  }

  // ---------------------------------------------------------------- whole steps

  lemma {:induction false} ExpireKeeps(s: State, now: int)
    requires Inv(s) && !s.stopped
    ensures Inv(Expire(s, now)) && !Expire(s, now).stopped
    decreases |s.pending|
  {
    var i := FirstExpired(s, now);
    if i < |s.pending| {
      SettleKeeps(s, i, Deferred(s.pending[i].ticket));
      ExpireKeeps(Defer(s, i), now);
    }
  }

  /** One pass of the grant loop keeps the invariant. */
  lemma GrantStep(s: State, now: int)
    requires Inv(s) && Sane(s) && !s.stopped && Pick(s, now) < |s.pending|
    ensures
      var i, c := Pick(s, now), Scan(s, now);
      && c.pending[i].key in c.endpoints && c.pending[i].id !in c.leases
      && Inv(Grant(c, i, now)) && Sane(Grant(c, i, now)) && !Grant(c, i, now).stopped
  {
    ScanKeeps(s, now);
    ScanSane(s, now);
    PickOldest(s, now);
    GrantKeeps(Scan(s, now), Pick(s, now), now);
    GrantSane(Scan(s, now), Pick(s, now), now);
  }

  lemma {:induction false} GrantAllKeeps(s: State, now: int)
    requires Inv(s) && Sane(s) && !s.stopped
    ensures Inv(GrantAll(s, now)) && !GrantAll(s, now).stopped
    decreases |s.pending|
  {
    hide Inv;
    ScanKeeps(s, now);
    if Pick(s, now) < |s.pending| {
      GrantStep(s, now);
      GrantAllKeeps(Grant(Scan(s, now), Pick(s, now), now), now);
    }
  }

  lemma ArmKeeps(s: State, now: int)
    requires Inv(s) && Sane(s) && !s.stopped
    ensures Inv(Arm(s, now))
  {
    TouchedOk(s.endpoints, {}, RearmGaps(s, s.pending), now, s.gap);
    NoTotals(s.endpoints, now);
    TouchKeeps(s, Arm(s, now).endpoints);
  }

  lemma SweptKeeps(s: State, now: int)
    requires Inv(s) && Sane(s) && !s.stopped
    ensures Inv(Swept(s, now)) && !Swept(s, now).stopped
  {
    ReclaimKeeps(s, now);
    ExpireKeeps(Reclaim(s, now), now);
  }

  lemma DrainKeeps(s: State, now: int)
    requires Inv(s)
    ensures Sane(s) && Inv(Drain(s, now))
  {
    InvSane(s);
    if !s.stopped {
      SweptKeeps(s, now);
      var b := Swept(s, now);
      GrantAllKeeps(b, now);
      ArmKeeps(GrantAll(b, now), now);
    }
  }

  lemma {:induction false} DeferAllKeeps(s: State)
    requires Inv(s)
    ensures Inv(DeferAll(s)) && DeferAll(s).pending == []
    decreases |s.pending|
  {
    if s.pending != [] {
      SettleKeeps(s, 0, Deferred(s.pending[0].ticket));
      DeferAllKeeps(Defer(s, 0));
    }
  }

  lemma HaltKeeps(s: State)
    requires Inv(s)
    ensures Inv(Halt(s))
  {
    DeferAllKeeps(s);
  }

  lemma ApplyKeeps(s: State, step: Step)
    requires Inv(s)
    ensures Sane(s) && Inv(Apply(s, step))
  {
    hide Inv, Drain, DropLease, Enqueue, Halt;
    InvSane(s);
    match step
    case Acquire(id, key, work, now) =>
      if Accepts(s, id, key, work) {
        EnqueueKeeps(s, id, key, work, now);
        DrainKeeps(Enqueue(s, id, key, work, now), now);
      }
    case Cancel(id, now) =>
      var i := First(s.pending, (r: Request) => r.id == id);
      if i < |s.pending| { SettleKeeps(s, i, Deferred(s.pending[i].ticket)); }
      DropLeaseKeeps(DropWaiter(s, id), id);
      DrainKeeps(DropLease(DropWaiter(s, id), id), now);
    case Release(id, now) =>
      DropLeaseKeeps(s, id);
      DrainKeeps(DropLease(s, id), now);
    case Fire(now) =>
      DrainKeeps(s, now);
    case Stop =>
      HaltKeeps(s);
  }

  // ---------------------------------------------------------------- runs

  ghost function Run(s: State, steps: seq<Step>): (t: State)
    requires Inv(s)
    ensures Inv(t)
    decreases |steps|
  {
    if steps == [] then s
    else
      ApplyKeeps(s, steps[0]);
      Run(Apply(s, steps[0]), steps[1..])
  }

  lemma {:induction false} InitialSafe(configs: seq<(Key, Limit)>, gap: GapAllocation, leaseMs: int, now: int)
    requires ValidConfig(configs, gap, leaseMs)
    ensures Inv(Initial(configs, gap, leaseMs, now))
  {
    forall n | 0 <= n <= |configs|
      ensures forall k :: k in NewEndpoints(configs[..n], gap, now) ==>
                EndpointOk(NewEndpoints(configs[..n], gap, now)[k], gap)
    {
      EndpointsOk(configs, gap, leaseMs, now, n);
    }
    assert configs[..|configs|] == configs;
  }

  lemma {:induction false} EndpointsOk(configs: seq<(Key, Limit)>, gap: GapAllocation, leaseMs: int, now: int, n: nat)
    requires ValidConfig(configs, gap, leaseMs) && n <= |configs|
    ensures forall k :: k in NewEndpoints(configs[..n], gap, now) ==>
              EndpointOk(NewEndpoints(configs[..n], gap, now)[k], gap)
  {
    if n > 0 {
      EndpointsOk(configs, gap, leaseMs, now, n - 1);
      assert configs[..n][..n - 1] == configs[..n - 1];
      var limits := seq(|configs|, i requires 0 <= i < |configs| => configs[i].1);
      assert limits[n - 1] == configs[n - 1].1;
    }
  }

  /** Whole-run safety, spelled out: from any valid configuration, after any steps at any clock readings. */
  lemma SafeForever(configs: seq<(Key, Limit)>, gap: GapAllocation, leaseMs: int, now: int, steps: seq<Step>)
    requires ValidConfig(configs, gap, leaseMs)
    ensures Inv(Initial(configs, gap, leaseMs, now))
    ensures
      var t := Run(Initial(configs, gap, leaseMs, now), steps);
      && IdsApart(t.pending, t.leases)
      && t.gapInFlight == |GapLeases(t.leases)|
      && (t.gap.LimitedGap? ==> t.gapInFlight <= t.gap.maxInFlight)
      && (t.gap.Disabled? ==> t.gapInFlight == 0)
      && |t.pending| <= MAX_PENDING
      && SettledOnce(t.accepted, t.pending, t.settled)
      && ArrivalOrder(t.pending, t.settled)
      && (t.stopped ==> Idle(t) && |t.settled| == t.accepted)
  {
    InitialSafe(configs, gap, leaseMs, now);
  }

  /** Stopping is final: no later call or stray timer firing changes anything or settles another promise. */
  lemma {:induction false} StoppedForever(s: State, steps: seq<Step>)
    requires Inv(s) && s.stopped
    ensures Run(s, steps) == s
    decreases |steps|
  {
    if steps != [] {
      ApplyKeeps(s, steps[0]);
      assert Apply(s, steps[0]) == s;
      StoppedForever(s, steps[1..]);
    }
  }

  /** Stop itself settles every outstanding promise. */
  lemma StopSettlesAll(s: State)
    requires Inv(s)
    ensures Sane(s)
    ensures
      var t := Apply(s, Stop);
      Inv(t) && t.stopped && Idle(t) && |t.settled| == t.accepted == s.accepted
  {
    ApplyKeeps(s, Stop);
    DeferAllAccepts(s);
    hide DeferAll, Configured, IdsApart, GapBounded, ArrivalOrder;
  }

  lemma {:induction false} DeferAllAccepts(s: State)
    ensures DeferAll(s).accepted == s.accepted
    decreases |s.pending|
  {
    if s.pending != [] { DeferAllAccepts(Defer(s, 0)); }
  }
}

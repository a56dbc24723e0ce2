/** The scheduler object of shared/evm/rpc-budget.ts, proved step by step equal to the value model. */
module RpcBudgetScheduler {
  import opened Common
  import TB = TokenBucket
  import opened RpcBudgetModel
  import opened RpcBudgetSafety
  import opened RpcBudgetOrder

  // ---------------------------------------------------------------- refilling one bucket after another

  lemma TouchTotalsUnion(es: map<Key, Endpoint>, a: set<Key>, k: Key, now: int)
    ensures TouchTotals(TouchTotals(es, a, now), {k}, now) == TouchTotals(es, a + {k}, now)
  {
    forall x | x in es ensures TouchTotals(TouchTotals(es, a, now), {k}, now)[x] == TouchTotals(es, a + {k}, now)[x] {
      TB.RefillIdempotent(es[x].total, now);
    }
  }

  lemma TouchGapsUnion(es: map<Key, Endpoint>, a: set<Key>, k: Key, now: int)
    ensures TouchGaps(TouchGaps(es, a, now), {k}, now) == TouchGaps(es, a + {k}, now)
  {
    forall x | x in es ensures TouchGaps(TouchGaps(es, a, now), {k}, now)[x] == TouchGaps(es, a + {k}, now)[x] {
      if es[x].gap.Some? { TB.RefillIdempotent(es[x].gap.value, now); }
    }
  }

  ghost function Consulted(s: State, i: nat, now: int): set<Key>
    requires i <= |s.pending|
  {
    set r | r in s.pending[..i] && r.work.GapRepair? && TotalReady(s, r, now) :: r.key
  }

  /** The state after the first i waiters' total buckets were read. */
  ghost function TotalsRead(s: State, i: nat, now: int): State
    requires i <= |s.pending|
  {
    s.(endpoints := TouchTotals(s.endpoints, KeysOf(s.pending[..i]), now))
  }

  lemma NothingRead(s: State, now: int)
    ensures TotalsRead(s, 0, now) == s
  {
    assert TouchTotals(s.endpoints, KeysOf(s.pending[..0]), now) == s.endpoints;
  }

  lemma TotalsReadReady(s: State, now: int)
    ensures
      var c := TotalsRead(s, |s.pending|, now);
      && (Sane(s) ==> Sane(c))
      && forall r :: TotalReady(c, r, now) == TotalReady(s, r, now) && GapReady(c, r, now) == GapReady(s, r, now)
  {
    var c := TotalsRead(s, |s.pending|, now);
    assert TouchGaps(c.endpoints, {}, now) == c.endpoints;
    assert s.pending[..|s.pending|] == s.pending;
    forall r ensures TotalReady(c, r, now) == TotalReady(s, r, now) && GapReady(c, r, now) == GapReady(s, r, now) {
      TouchReady(s, KeysOf(s.pending), {}, now, r);
    }
  }

  lemma ReadyKept(s: State, ready: seq<bool>, now: int)
    requires Sane(s) && |ready| == |s.pending|
    requires forall j :: 0 <= j < |ready| ==> ready[j] == TotalReady(s, s.pending[j], now)
    ensures
      var c := TotalsRead(s, |s.pending|, now);
      Sane(c) && forall j :: 0 <= j < |ready| ==> ready[j] == TotalReady(c, c.pending[j], now)
  {
    TotalsReadReady(s, now);
  }

  lemma ScanIs(s: State, now: int)
    ensures
      var c, g := TotalsRead(s, |s.pending|, now), NextGap(s, now);
      Scan(s, now) ==
        if CanStartGap(s) then GapsRead(c, Min(g + 1, |s.pending|), now) else c
  {
    TotalsReadReady(s, now);
    var c, g := TotalsRead(s, |s.pending|, now), NextGap(s, now);
    assert s.pending[..|s.pending|] == s.pending;
    if CanStartGap(s) {
      assert Consulted(c, Min(g + 1, |s.pending|), now) == ConsultedGaps(s, now);
    } else {
      assert TouchGaps(c.endpoints, {}, now) == c.endpoints;
    }
  }

  /** Reading one more waiter's total bucket: its wait is zero exactly when the model calls it ready. */
  lemma TotalStep(s: State, i: nat, now: int)
    requires Sane(s) && i < |s.pending|
    ensures
      var es, k := TouchTotals(s.endpoints, KeysOf(s.pending[..i]), now), s.pending[i].key;
      && k in es && TB.ValidLimit(es[k].total.limit)
      && (TB.WaitMs(es[k].total, now) == 0 <==> TotalReady(s, s.pending[i], now))
      && TouchTotals(es, {k}, now) == TouchTotals(s.endpoints, KeysOf(s.pending[..i + 1]), now)
  {
    var k := s.pending[i].key;
    assert s.pending[i] in s.pending;
    TB.RefillIdempotent(s.endpoints[k].total, now);
    TouchTotalsUnion(s.endpoints, KeysOf(s.pending[..i]), k, now);
    assert KeysOf(s.pending[..i + 1]) == KeysOf(s.pending[..i]) + {k};
  }

  /** The state after the gap buckets of the first i ready gap waiters were read. */
  ghost function GapsRead(s: State, i: nat, now: int): State
    requires i <= |s.pending|
  {
    s.(endpoints := TouchGaps(s.endpoints, Consulted(s, i, now), now))
  }

  lemma NoGapRead(s: State, now: int)
    ensures GapsRead(s, 0, now) == s
  {
    assert TouchGaps(s.endpoints, Consulted(s, 0, now), now) == s.endpoints;
  }

  /** Reading one more ready gap waiter's gap bucket. */
  lemma GapStep(s: State, i: nat, now: int)
    requires Sane(s) && i < |s.pending| && s.pending[i].work.GapRepair? && TotalReady(s, s.pending[i], now)
    ensures
      var es, k := TouchGaps(s.endpoints, Consulted(s, i, now), now), s.pending[i].key;
      && k in es && (es[k].gap.Some? ==> TB.ValidLimit(es[k].gap.value.limit))
      && ((es[k].gap.None? || TB.WaitMs(es[k].gap.value, now) == 0) <==> GapGrantable(s, s.pending[i], now))
      && TouchGaps(es, {k}, now) == TouchGaps(s.endpoints, Consulted(s, i + 1, now), now)
  {
    var k := s.pending[i].key;
    assert s.pending[i] in s.pending;
    if s.endpoints[k].gap.Some? { TB.RefillIdempotent(s.endpoints[k].gap.value, now); }
    TouchGapsUnion(s.endpoints, Consulted(s, i, now), k, now);
    ConsultedNext(s, i, now);
    hide Consulted;
  }

  lemma ConsultedNext(s: State, i: nat, now: int)
    requires i < |s.pending| && s.pending[i].work.GapRepair? && TotalReady(s, s.pending[i], now)
    ensures Consulted(s, i + 1, now) == Consulted(s, i, now) + {s.pending[i].key}
  {
    hide TotalReady;
    assert s.pending[..i + 1] == s.pending[..i] + [s.pending[i]];
  }

  lemma GapSkip(s: State, i: nat, now: int)
    requires i < |s.pending| && !(s.pending[i].work.GapRepair? && TotalReady(s, s.pending[i], now))
    ensures GapsRead(s, i + 1, now) == GapsRead(s, i, now)
  {
    assert s.pending[..i + 1] == s.pending[..i] + [s.pending[i]];
  }

  lemma NoGapNext(s: State, now: int)
    requires !CanStartGap(s)
    ensures NextGap(s, now) == |s.pending|
  {
  }

  lemma GapIs(s: State, now: int, i: nat)
    requires CanStartGap(s) && i <= |s.pending|
    requires i < |s.pending| ==> GapGrantable(TotalsRead(s, |s.pending|, now), s.pending[i], now)
    requires forall j :: 0 <= j < i ==> !GapGrantable(TotalsRead(s, |s.pending|, now), s.pending[j], now)
    ensures i == NextGap(s, now)
  {
    TotalsReadReady(s, now);
    var n := NextGap(s, now);
    assert n < |s.pending| ==> GapGrantable(s, s.pending[n], now);
    assert forall j :: 0 <= j < n ==> !GapGrantable(s, s.pending[j], now);
  }

  lemma MainIs(s: State, now: int, ready: seq<bool>, i: nat)
    requires |ready| == |s.pending| && forall j :: 0 <= j < |ready| ==> ready[j] == TotalReady(s, s.pending[j], now)
    requires i <= |s.pending| && (i < |s.pending| ==> ready[i] && s.pending[i].work.Main?)
    requires forall j :: 0 <= j < i ==> !(ready[j] && s.pending[j].work.Main?)
    ensures i == NextMain(s, now)
  {
    var n := NextMain(s, now);
    assert n < |s.pending| ==> MainGrantable(s, s.pending[n], now);
    assert forall j :: 0 <= j < n ==> !MainGrantable(s, s.pending[j], now);
  }

  // ---------------------------------------------------------------- sweeping and re-arming, value by value

  /** Leases left when those outside `rest` have been examined. */
  ghost function Remaining(leases: map<Id, Lease>, rest: set<Id>, now: int): map<Id, Lease> {
    map id | id in leases && (id in rest || leases[id].expiresAt > now) :: leases[id]
  }

  lemma ReclaimStep(leases: map<Id, Lease>, rest: set<Id>, id: Id, now: int)
    requires rest <= leases.Keys && id in rest
    ensures leases[id].expiresAt <= now ==>
              Remaining(leases, rest - {id}, now) == Remaining(leases, rest, now) - {id}
    ensures leases[id].expiresAt > now ==> Remaining(leases, rest - {id}, now) == Remaining(leases, rest, now)
    ensures |GapLeases(Lapsed(leases - (rest - {id}), now))| ==
              |GapLeases(Lapsed(leases - rest, now))| +
              (if leases[id].expiresAt <= now && leases[id].work.GapRepair? then 1 else 0)
  {
    LapsedGap(leases, rest, id, now);
    hide GapLeases, Lapsed;
  }

  lemma LapsedGap(leases: map<Id, Lease>, rest: set<Id>, id: Id, now: int)
    requires rest <= leases.Keys && id in rest
    ensures |GapLeases(Lapsed(leases - (rest - {id}), now))| ==
              |GapLeases(Lapsed(leases - rest, now))| +
              (if leases[id].expiresAt <= now && leases[id].work.GapRepair? then 1 else 0)
  {
    var a, b := GapLeases(Lapsed(leases - rest, now)), GapLeases(Lapsed(leases - (rest - {id}), now));
    if leases[id].expiresAt <= now && leases[id].work.GapRepair? {
      assert b == a + {id};
    } else {
      assert b == a;
    }
  }

  lemma ExpiredIs(s: State, now: int, i: nat)
    requires i <= |s.pending| && (i < |s.pending| ==> s.pending[i].expiresAt <= now)
    requires forall j :: 0 <= j < i ==> s.pending[j].expiresAt > now
    ensures i == FirstExpired(s, now)
  {
    var n := FirstExpired(s, now);
    assert n < |s.pending| ==> s.pending[n].expiresAt <= now;
    assert forall j :: 0 <= j < n ==> s.pending[j].expiresAt > now;
  }

  lemma ExpireFirst(s: State, now: int, i: nat)
    requires i <= |s.pending| && (i < |s.pending| ==> s.pending[i].expiresAt <= now)
    requires forall j :: 0 <= j < i ==> s.pending[j].expiresAt > now
    ensures Expire(s, now) == if i < |s.pending| then Expire(Defer(s, i), now) else s
  {
    ExpiredIs(s, now, i);
  }

  /** The smaller of two delays, where None stands for the initial Infinity. */
  function MinDelay(wait: Option<int>, w: int): Option<int> {
    if wait.None? then Some(w) else Some(Min(wait.value, w))
  }

  ghost predicate Tracks(wait: Option<int>, ws: set<int>) {
    match wait
    case None => ws == {}
    case Some(w) => IsLeast(ws, w)
  }

  lemma TracksAdd(wait: Option<int>, ws: set<int>, w: int)
    requires Tracks(wait, ws)
    ensures Tracks(MinDelay(wait, w), ws + {w})
  {
  }

  /** The delays contributed by some of the waiters and some of the leases. */
  ghost function DelaysOf(s: State, rs: seq<Request>, ids: set<Id>, now: int): set<int>
    requires Sane(s) && (forall r :: r in rs ==> r in s.pending) && ids <= s.leases.Keys
  {
    (set r | r in rs :: r.expiresAt - now)
    + (set r | r in rs && (r.work.Main? || CanStartGap(s)) :: MaxWait(s, r, now))
    + (set id | id in ids :: s.leases[id].expiresAt - now)
  }

  /** Every waiter's total bucket has been read at this clock reading. */
  ghost predicate TotalsSettled(s: State, now: int) {
    forall r :: r in s.pending && r.key in s.endpoints ==> SettledAt(s.endpoints[r.key], now)
  }

  ghost predicate SettledAt(e: Endpoint, now: int) { TB.Refill(e.total, now) == e.total }

  lemma ScanSettles(s: State, now: int)
    ensures TotalsSettled(Scan(s, now), now)
  {
    forall r | r in s.pending && r.key in s.endpoints ensures SettledAt(Scan(s, now).endpoints[r.key], now) {
      TB.RefillIdempotent(s.endpoints[r.key].total, now);
    }
  }

  lemma {:induction false} GrantAllSettles(s: State, now: int)
    requires Sane(s)
    ensures TotalsSettled(GrantAll(s, now), now)
    decreases |s.pending|
  {
    ScanSettles(s, now);
    ScanSane(s, now);
    if Pick(s, now) < |s.pending| {
      GrantSane(Scan(s, now), Pick(s, now), now);
      GrantAllSettles(Grant(Scan(s, now), Pick(s, now), now), now);
    }
  }

  /** The buckets as the re-arming loop has left them after i waiters. */
  ghost function Rearmed(s: State, i: nat, now: int): State
    requires i <= |s.pending|
  {
    s.(endpoints := TouchGaps(s.endpoints, RearmGaps(s, s.pending[..i]), now))
  }

  lemma RearmStart(s: State, now: int)
    requires Sane(s)
    ensures Rearmed(s, 0, now) == s && DelaysOf(s, s.pending[..0], {}, now) == {}
  {
    assert TouchGaps(s.endpoints, {}, now) == s.endpoints;
    assert RearmGaps(s, s.pending[..0]) == {};
  }

  lemma RearmTotal(s: State, i: nat, now: int)
    requires Sane(s) && TotalsSettled(s, now) && i < |s.pending|
    ensures
      var es, k := Rearmed(s, i, now).endpoints, s.pending[i].key;
      && k in es && TB.ValidLimit(es[k].total.limit)
      && TB.WaitMs(es[k].total, now) == TB.WaitMs(s.endpoints[k].total, now)
      && TouchTotals(es, {k}, now) == es
  {
    assert s.pending[i] in s.pending;
    assert SettledAt(s.endpoints[s.pending[i].key], now);
  }

  lemma RearmGap(s: State, i: nat, now: int)
    requires Sane(s) && i < |s.pending| && s.pending[i].work.GapRepair? && CanStartGap(s)
    ensures
      var es, k := Rearmed(s, i, now).endpoints, s.pending[i].key;
      && k in es && (es[k].gap.Some? <==> s.endpoints[k].gap.Some?)
      && (es[k].gap.Some? ==>
            && TB.ValidLimit(es[k].gap.value.limit)
            && TB.WaitMs(es[k].gap.value, now) == TB.WaitMs(s.endpoints[k].gap.value, now))
      && TouchGaps(es, {k}, now) == Rearmed(s, i + 1, now).endpoints
  {
    hide TB.WaitMs, TB.Refill;
    var k := s.pending[i].key;
    assert s.pending[i] in s.pending;
    if s.endpoints[k].gap.Some? { TB.TouchWait(s.endpoints[k].gap.value, now); }
    TouchGapsUnion(s.endpoints, RearmGaps(s, s.pending[..i]), k, now);
    assert RearmGaps(s, s.pending[..i + 1]) == RearmGaps(s, s.pending[..i]) + {k};
  }

  lemma RearmNoGap(s: State, i: nat, now: int)
    requires i < |s.pending| && !(s.pending[i].work.GapRepair? && CanStartGap(s))
    ensures Rearmed(s, i + 1, now) == Rearmed(s, i, now)
  {
    assert s.pending[..i + 1] == s.pending[..i] + [s.pending[i]];
    assert RearmGaps(s, s.pending[..i + 1]) == RearmGaps(s, s.pending[..i]);
  }

  lemma DelaysSnoc(s: State, rs: seq<Request>, r: Request, now: int)
    requires Sane(s) && r in s.pending && forall q :: q in rs ==> q in s.pending
    ensures DelaysOf(s, rs + [r], {}, now) ==
              DelaysOf(s, rs, {}, now) + {r.expiresAt - now}
              + (if r.work.Main? || CanStartGap(s) then {MaxWait(s, r, now)} else {})
  {
    hide MaxWait, CanStartGap, Sane;
    var more := rs + [r];
    assert forall q :: q in more <==> q in rs || q == r;
    assert (set q | q in more :: q.expiresAt - now) == (set q | q in rs :: q.expiresAt - now) + {r.expiresAt - now};
    WaitsSnoc(s, rs, r, now);
  }

  lemma WaitsSnoc(s: State, rs: seq<Request>, r: Request, now: int)
    requires Sane(s) && r in s.pending && forall q :: q in rs ==> q in s.pending
    ensures (set q | q in rs + [r] && (q.work.Main? || CanStartGap(s)) :: MaxWait(s, q, now)) ==
              (set q | q in rs && (q.work.Main? || CanStartGap(s)) :: MaxWait(s, q, now))
              + (if r.work.Main? || CanStartGap(s) then {MaxWait(s, r, now)} else {})
  {
    hide MaxWait, CanStartGap;
    assert forall q :: q in rs + [r] <==> q in rs || q == r;
  }

  function NextDelay(wait: Option<int>, expiry: int, w: Option<int>): Option<int> {
    if w.Some? then MinDelay(MinDelay(wait, expiry), w.value) else MinDelay(wait, expiry)
  }

  lemma TracksSnoc(s: State, i: nat, now: int, wait: Option<int>, w: Option<int>)
    requires Sane(s) && i < |s.pending| && Tracks(wait, DelaysOf(s, s.pending[..i], {}, now))
    requires s.pending[i].key in s.endpoints
    requires w == if s.pending[i].work.Main? || CanStartGap(s) then Some(MaxWait(s, s.pending[i], now)) else None
    ensures Tracks(NextDelay(wait, s.pending[i].expiresAt - now, w), DelaysOf(s, s.pending[..i + 1], {}, now))
  {
    hide DelaysOf, MaxWait, IsLeast;
    var r, rs := s.pending[i], s.pending[..i];
    assert s.pending[..i + 1] == rs + [r];
    assert r in s.pending;
    var ws, e := DelaysOf(s, rs, {}, now), r.expiresAt - now;
    DelaysSnoc(s, rs, r, now);
    TracksAdd(wait, ws, e);
    if w.Some? {
      TracksAdd(MinDelay(wait, e), ws + {e}, w.value);
      assert DelaysOf(s, rs + [r], {}, now) == ws + {e} + {w.value};
    } else {
      assert DelaysOf(s, rs + [r], {}, now) == ws + {e};
    }
  }

  lemma LeaseDelay(s: State, ids: set<Id>, id: Id, now: int)
    requires Sane(s) && ids <= s.leases.Keys && id in s.leases
    ensures DelaysOf(s, s.pending, ids + {id}, now) == DelaysOf(s, s.pending, ids, now) + {s.leases[id].expiresAt - now}
  {
  }

  lemma WaiterIs(s: State, id: Id, i: nat)
    requires i <= |s.pending| && (i < |s.pending| ==> s.pending[i].id == id)
    requires forall j :: 0 <= j < i ==> s.pending[j].id != id
    ensures i == |s.pending| <==> forall r :: r in s.pending ==> r.id != id
    ensures DropWaiter(s, id) == if i < |s.pending| then Defer(s, i) else s
  {
    var n := First(s.pending, (r: Request) => r.id == id);
    assert n < |s.pending| ==> s.pending[n].id == id;
    assert forall j :: 0 <= j < n ==> s.pending[j].id != id;
    assert i == n;
    if i < |s.pending| { assert s.pending[i] in s.pending; }
  }

  /** Reading the gap buckets does not change the delays. */
  lemma RearmedDelays(s: State, now: int)
    requires Sane(s)
    ensures
      var t := Rearmed(s, |s.pending|, now);
      Sane(t) && forall ids | ids <= s.leases.Keys ::
        DelaysOf(t, s.pending, ids, now) == DelaysOf(s, s.pending, ids, now)
  {
    hide TB.WaitMs;
    var t := Rearmed(s, |s.pending|, now);
    forall r | r in s.pending ensures MaxWait(t, r, now) == MaxWait(s, r, now) {
      var e := s.endpoints[r.key];
      if e.gap.Some? { TB.TouchWait(e.gap.value, now); }
    }
  }

  lemma RearmDone(s: State, now: int, wait: Option<int>)
    requires Sane(s)
    requires Tracks(wait, DelaysOf(s, s.pending, if s.pending == [] then {} else s.leases.Keys, now))
    ensures Arm(s, now) == Rearmed(s, |s.pending|, now).(timer :=
              if wait.Some? then Some(now + Max(1, wait.value)) else None)
  {
    assert s.pending[..|s.pending|] == s.pending;
    if s.pending != [] {
      assert s.pending[0].expiresAt - now in Delays(s, now);
      assert Delays(s, now) == DelaysOf(s, s.pending, s.leases.Keys, now);
    }
  }

  lemma ConfigExactly(configs: seq<(Key, TB.Limit)>, gap: GapAllocation, leaseMs: int)
    ensures ValidConfig(configs, gap, leaseMs) <==>
            && 1 <= leaseMs <= 9007199254740991
            && (forall i | 0 <= i < |configs| && configs[i].1.Limited? ::
                  configs[i].1.rate > 0.0 && 1 <= configs[i].1.burst <= 9007199254740991)
            && (gap.LimitedGap? ==>
                  && gap.rate > 0.0 && 1 <= gap.maxInFlight <= 9007199254740991
                  && forall i | 0 <= i < |configs| && configs[i].1.Limited? :: gap.rate < configs[i].1.rate)
  {
    var limits := seq(|configs|, i requires 0 <= i < |configs| => configs[i].1);
    assert forall i :: 0 <= i < |configs| ==> limits[i] == configs[i].1;
  }

  /** Construction fails exactly on an allocation, lease time or endpoint limit the source refuses. */
  method Create(configs: seq<(Key, TB.Limit)>, gap: GapAllocation, leaseMs: int, now: int)
    returns (r: Result<Scheduler>)
    ensures r.Ok? <==> ValidConfig(configs, gap, leaseMs)
    ensures r.Ok? <==>
            && 1 <= leaseMs <= 9007199254740991
            && (forall i | 0 <= i < |configs| && configs[i].1.Limited? ::
                  configs[i].1.rate > 0.0 && 1 <= configs[i].1.burst <= 9007199254740991)
            && (gap.LimitedGap? ==>
                  && gap.rate > 0.0 && 1 <= gap.maxInFlight <= 9007199254740991
                  && forall i | 0 <= i < |configs| && configs[i].1.Limited? :: gap.rate < configs[i].1.rate)
    ensures r.Ok? ==> fresh(r.value) && r.value.Valid() && r.value.View() == Initial(configs, gap, leaseMs, now)
  {
    ConfigExactly(configs, gap, leaseMs);
    hide *;
    if !ValidConfig(configs, gap, leaseMs) { return Thrown; }
    var s := new Scheduler(configs, gap, leaseMs, now);
    return Ok(s);
  }

  class Scheduler {
    var endpoints: map<Key, Endpoint>
    const gap: GapAllocation
    const leaseMs: int
    var pending: seq<Request>
    var leases: map<Id, Lease>
    var gapInFlight: int
    var timer: Option<int>
    var stopped: bool
    var accepted: nat
    var settled: seq<Outcome>

    ghost function View(): State
      reads this
    {
      State(gap, leaseMs, endpoints, pending, leases, gapInFlight, timer, stopped, accepted, settled)
    }

    ghost predicate Valid()
      reads this
    {
      Inv(View())
    }

    constructor (configs: seq<(Key, TB.Limit)>, gap: GapAllocation, leaseMs: int, now: int)
      requires ValidConfig(configs, gap, leaseMs)
      ensures Valid() && View() == Initial(configs, gap, leaseMs, now)
    {
      this.gap, this.leaseMs := gap, leaseMs;
      var es: map<Key, Endpoint> := map[];
      for i := 0 to |configs|
        invariant es == NewEndpoints(configs[..i], gap, now)
      {
        es := es[configs[i].0 := NewEndpoint(configs[i].1, gap, now)];
        assert configs[..i + 1][..i] == configs[..i];
      }
      assert configs[..|configs|] == configs;
      endpoints := es;
      pending, leases, gapInFlight := [], map[], 0;
      timer, stopped, accepted, settled := None, false, 0, [];
      new;
      InitialSafe(configs, gap, leaseMs, now);
    }

    // -------------------------------------------------------------- one limiter at a time

    method TotalWait(k: Key, now: int) returns (w: int)
      requires k in endpoints && TB.ValidLimit(endpoints[k].total.limit)
      modifies `endpoints
      ensures w == TB.WaitMs(old(endpoints)[k].total, now)
      ensures endpoints == TouchTotals(old(endpoints), {k}, now)
    {
      w := TB.WaitMs(endpoints[k].total, now);
      endpoints := endpoints[k := endpoints[k].(total := TB.Refill(endpoints[k].total, now))];
      assert endpoints == TouchTotals(old(endpoints), {k}, now);
    }

    method GapWait(k: Key, now: int) returns (w: int)
      requires k in endpoints && (endpoints[k].gap.Some? ==> TB.ValidLimit(endpoints[k].gap.value.limit))
      modifies `endpoints
      ensures var g := old(endpoints)[k].gap; w == if g.Some? then TB.WaitMs(g.value, now) else 0
      ensures endpoints == TouchGaps(old(endpoints), {k}, now)
    {
      w := 0;
      if endpoints[k].gap.Some? {
        w := TB.WaitMs(endpoints[k].gap.value, now);
        endpoints := endpoints[k := endpoints[k].(gap := Some(TB.Refill(endpoints[k].gap.value, now)))];
      }
      assert endpoints == TouchGaps(old(endpoints), {k}, now);
    }

    // -------------------------------------------------------------- the grant loop

    method ReadNext(i: nat, now: int, ghost s: State) returns (ready: bool)
      requires Sane(s) && pending == s.pending && i < |pending|
      requires View() == TotalsRead(s, i, now)
      modifies `endpoints
      ensures View() == TotalsRead(s, i + 1, now)
      ensures ready == TotalReady(s, pending[i], now)
    {
      TotalStep(s, i, now);
      var k := pending[i].key;
      assert k in endpoints;
      var w := TotalWait(k, now);
      ready := w == 0;
    }

    method FindReady(now: int) returns (ready: seq<bool>)
      requires Sane(View())
      modifies `endpoints
      ensures View() == TotalsRead(old(View()), |pending|, now)
      ensures |ready| == |pending|
      ensures forall i :: 0 <= i < |pending| ==> ready[i] == TotalReady(old(View()), pending[i], now)
    {
      hide TotalReady, Sane;
      ghost var s := View();
      ready := [];
      NothingRead(s, now);
      for i := 0 to |pending|
        invariant |ready| == i && View() == TotalsRead(s, i, now)
        invariant forall j :: 0 <= j < i ==> ready[j] == TotalReady(s, pending[j], now)
      {
        var r := ReadNext(i, now, s);
        ready := ready + [r];
      }
    }

    method ConsultNext(i: nat, ready: bool, now: int, ghost s: State) returns (hit: bool)
      requires Sane(s) && pending == s.pending && i < |pending|
      requires View() == GapsRead(s, i, now) && ready == TotalReady(s, pending[i], now)
      modifies `endpoints
      ensures View() == GapsRead(s, i + 1, now)
      ensures hit == GapGrantable(s, pending[i], now)
    {
      if !ready || pending[i].work.Main? {
        GapSkip(s, i, now);
        return false;
      }
      GapStep(s, i, now);
      var k := pending[i].key;
      assert k in endpoints;
      var w := GapWait(k, now);
      hit := w == 0;
    }

    method FindGap(ready: seq<bool>, now: int) returns (i: nat)
      requires Sane(View()) && |ready| == |pending|
      requires forall j :: 0 <= j < |pending| ==> ready[j] == TotalReady(View(), pending[j], now)
      modifies `endpoints
      ensures i <= |pending| && (i < |pending| ==> GapGrantable(old(View()), pending[i], now))
      ensures forall j :: 0 <= j < i ==> !GapGrantable(old(View()), pending[j], now)
      ensures View() == GapsRead(old(View()), Min(i + 1, |pending|), now)
    {
      hide GapsRead, GapGrantable, TotalReady, Sane;
      ghost var s := View();
      i := 0;
      NoGapRead(s, now);
      var hit := false;
      while i < |pending| && !hit
        invariant i <= |pending| && (hit ==> i < |pending| && GapGrantable(s, pending[i], now))
        invariant View() == GapsRead(s, if hit then i + 1 else i, now)
        invariant forall j :: 0 <= j < i ==> !GapGrantable(s, pending[j], now)
        decreases |pending| - i, !hit
      {
        hit := ConsultNext(i, ready[i], now, s);
        if !hit { i := i + 1; }
      }
    }

    method FindMain(ready: seq<bool>) returns (i: nat)
      requires |ready| == |pending|
      ensures i <= |pending| && (i < |pending| ==> ready[i] && pending[i].work.Main?)
      ensures forall j :: 0 <= j < i ==> !(ready[j] && pending[j].work.Main?)
    {
      i := 0;
      while i < |pending| && !(ready[i] && pending[i].work.Main?)
        invariant i <= |pending|
        invariant forall j :: 0 <= j < i ==> !(ready[j] && pending[j].work.Main?)
      {
        i := i + 1;
      }
    }

    method SearchGap(ready: seq<bool>, now: int, ghost s: State) returns (i: nat)
      requires Sane(s) && pending == s.pending && |ready| == |pending|
      requires View() == TotalsRead(s, |pending|, now)
      requires forall j :: 0 <= j < |pending| ==> ready[j] == TotalReady(s, pending[j], now)
      modifies `endpoints
      ensures i == NextGap(s, now) && View() == Scan(s, now)
    {
      hide Scan, GapGrantable, Sane, TotalReady, NextGap, GapsRead;
      ReadyKept(s, ready, now);
      i := |pending|;
      if CanStart() {
        i := FindGap(ready, now);
        GapIs(s, now, i);
        assert View() == GapsRead(TotalsRead(s, |pending|, now), Min(i + 1, |pending|), now);
      } else {
        NoGapNext(s, now);
      }
      ScanIs(s, now);
    }

    /** One pass of the loop's two searches: it finds what the model picks and refills what the model refills. */
    method Search(now: int) returns (next: nat)
      requires Sane(View())
      modifies `endpoints
      ensures next == Pick(old(View()), now) && View() == Scan(old(View()), now)
    {
      ghost var s := View();
      var ready := FindReady(now);
      var nextGap := SearchGap(ready, now, s);
      var nextMain := FindMain(ready);
      MainIs(s, now, ready, nextMain);
      next := Choose(gap, nextMain, nextGap, |pending|);
    }

    predicate CanStart()
      reads this
    {
      gap.UnlimitedGap? || (gap.LimitedGap? && gapInFlight < gap.maxInFlight)
    }

    method GrantLoop(now: int)
      requires Sane(View())
      modifies this
      ensures Sane(View()) && View() == GrantAll(old(View()), now)
    {
      ghost var goal := GrantAll(View(), now);
      while true
        invariant Sane(View()) && GrantAll(View(), now) == goal
        decreases |pending|
      {
        ghost var s := View();
        ScanSane(s, now);
        var i := Search(now);
        if i == |pending| { break; }
        GrantSane(View(), i, now);
        GrantOne(i, now);
      }
    }

    method GrantOne(i: nat, now: int)
      requires i < |pending| && pending[i].key in endpoints
      modifies this
      ensures View() == Grant(old(View()), i, now)
    {
      var next := pending[i];
      endpoints := endpoints[next.key := Spend(endpoints[next.key], next.work, now)];
      pending, settled := RemoveAt(pending, i), settled + [Granted(next.ticket, next.key, next.work)];
      leases := leases[next.id := Lease(next.key, next.work, now + leaseMs)];
      gapInFlight := gapInFlight + (if next.work.GapRepair? then 1 else 0);
    }

    // -------------------------------------------------------------- sweeping

    method ReclaimLeases(now: int)
      modifies `leases, `gapInFlight
      ensures View() == Reclaim(old(View()), now)
    {
      ghost var s := View();
      var rest := leases.Keys;
      assert leases == Remaining(s.leases, rest, now);
      while rest != {}
        invariant rest <= s.leases.Keys
        invariant leases == Remaining(s.leases, rest, now)
        invariant gapInFlight == s.gapInFlight - |GapLeases(Lapsed(s.leases - rest, now))|
      {
        var id :| id in rest;
        ReclaimStep(s.leases, rest, id, now);
        if leases[id].expiresAt <= now {
          gapInFlight := gapInFlight - (if leases[id].work.GapRepair? then 1 else 0);
          leases := leases - {id};
        }
        rest := rest - {id};
      }
      assert s.leases - {} == s.leases;
      assert Remaining(s.leases, {}, now) == s.leases - Lapsed(s.leases, now).Keys;
    }

    /** Drop a waiter and reject its promise. */
    method DeferAt(i: nat)
      requires i < |pending|
      modifies `pending, `settled
      ensures View() == Defer(old(View()), i)
    {
      pending, settled := RemoveAt(pending, i), settled + [Deferred(pending[i].ticket)];
    }

    method ExpireWaiters(now: int)
      modifies `pending, `settled
      ensures View() == Expire(old(View()), now)
    {
      hide Expire;
      ghost var goal := Expire(View(), now);
      var i := 0;
      while i < |pending|
        invariant i <= |pending| && Expire(View(), now) == goal
        invariant forall j :: 0 <= j < i ==> pending[j].expiresAt > now
        decreases |pending| - i
      {
        if pending[i].expiresAt <= now {
          ExpireFirst(View(), now, i);
          DeferAt(i);
        } else {
          i := i + 1;
        }
      }
      ExpireFirst(View(), now, i);
    }

    // -------------------------------------------------------------- re-arming

    method WaitNext(i: nat, now: int, ghost s: State) returns (w: Option<int>)
      requires Sane(s) && TotalsSettled(s, now) && pending == s.pending && i < |pending|
      requires View() == Rearmed(s, i, now)
      modifies `endpoints
      ensures View() == Rearmed(s, i + 1, now)
      ensures pending[i].key in s.endpoints
      ensures w == if pending[i].work.Main? || CanStartGap(s) then Some(MaxWait(s, pending[i], now)) else None
    {
      hide TouchGaps, TouchTotals, RearmGaps;
      RearmTotal(s, i, now);
      var r := pending[i];
      assert r in s.pending;
      var endpointWait := TotalWait(r.key, now);
      if r.work.Main? {
        RearmNoGap(s, i, now);
        w := Some(endpointWait);
      } else if CanStart() {
        RearmGap(s, i, now);
        var gapWait := GapWait(r.key, now);
        w := Some(Max(endpointWait, gapWait));
      } else {
        RearmNoGap(s, i, now);
        w := None;
      }
    }

    method DelayNext(i: nat, now: int, wait: Option<int>, ghost s: State) returns (next: Option<int>)
      requires Sane(s) && TotalsSettled(s, now) && pending == s.pending && i < |pending|
      requires View() == Rearmed(s, i, now) && Tracks(wait, DelaysOf(s, pending[..i], {}, now))
      modifies `endpoints
      ensures View() == Rearmed(s, i + 1, now) && Tracks(next, DelaysOf(s, pending[..i + 1], {}, now))
    {
      hide DelaysOf, Rearmed, Tracks, MaxWait;
      var w := WaitNext(i, now, s);
      next := NextDelay(wait, pending[i].expiresAt - now, w);
      TracksSnoc(s, i, now, wait, w);
    }

    method LeaseDelays(now: int, wait: Option<int>) returns (least: Option<int>)
      requires Sane(View()) && Tracks(wait, DelaysOf(View(), pending, {}, now))
      ensures Tracks(least, DelaysOf(View(), pending, leases.Keys, now))
    {
      hide DelaysOf, Tracks, MinDelay, Sane;
      least := wait;
      var rest := leases.Keys;
      assert leases.Keys - rest == {};
      while rest != {}
        invariant rest <= leases.Keys && Tracks(least, DelaysOf(View(), pending, leases.Keys - rest, now))
      {
        var id :| id in rest;
        LeaseDelay(View(), leases.Keys - rest, id, now);
        TracksAdd(least, DelaysOf(View(), pending, leases.Keys - rest, now), leases[id].expiresAt - now);
        least := MinDelay(least, leases[id].expiresAt - now);
        assert leases.Keys - (rest - {id}) == leases.Keys - rest + {id};
        rest := rest - {id};
      }
      assert leases.Keys - {} == leases.Keys;
    }

    method WaiterDelays(now: int) returns (wait: Option<int>)
      requires Sane(View()) && TotalsSettled(View(), now)
      modifies `endpoints
      ensures View() == Rearmed(old(View()), |pending|, now)
      ensures Tracks(wait, DelaysOf(old(View()), pending, {}, now))
    {
      hide Rearmed, TotalsSettled, IsLeast;
      ghost var s := View();
      wait := None;
      RearmStart(s, now);
      for i := 0 to |pending|
        invariant View() == Rearmed(s, i, now) && Tracks(wait, DelaysOf(s, pending[..i], {}, now))
      {
        wait := DelayNext(i, now, wait, s);
      }
      assert pending[..|pending|] == pending;
    }

    method Rearm(now: int)
      requires Sane(View()) && TotalsSettled(View(), now)
      modifies `endpoints, `timer
      ensures View() == Arm(old(View()), now)
    {
      ghost var s := View();
      var wait := WaiterDelays(now);
      RearmedDelays(s, now);
      if pending != [] { wait := LeaseDelays(now, wait); }
      RearmDone(s, now, wait);
      timer := if wait.Some? then Some(now + Max(1, wait.value)) else None;
    }

    // -------------------------------------------------------------- the public calls

    method DrainNow(now: int)
      requires Valid()
      modifies this
      ensures Valid() && Sane(old(View())) && View() == Drain(old(View()), now)
    {
      ghost var s := View();
      DrainKeeps(s, now);
      if stopped {
        timer := None;
        return;
      }
      ReclaimLeases(now);
      ExpireWaiters(now);
      GrantLoop(now);
      GrantAllSettles(Swept(s, now), now);
      Rearm(now);
    }

    method Admits(id: Id, key: Key, work: Work) returns (accepts: bool)
      ensures accepts == Accepts(View(), id, key, work)
    {
      var i := First(pending, (r: Request) => r.id == id);
      WaiterIs(View(), id, i);
      accepts := !stopped && |pending| < MAX_PENDING && key in endpoints && i == |pending| && id !in leases
                 && !(work.GapRepair? && gap.Disabled?);
    }

    method AddWaiter(id: Id, key: Key, work: Work, now: int)
      requires Valid() && Accepts(View(), id, key, work)
      modifies `pending, `accepted
      ensures Valid() && View() == Enqueue(old(View()), id, key, work, now)
    {
      hide Inv, Accepts;
      EnqueueKeeps(View(), id, key, work, now);
      pending, accepted := pending + [Request(accepted, id, key, work, now + WAIT_MS)], accepted + 1;
    }

    method Acquire(id: Id, key: Key, work: Work, now: int) returns (accepts: bool)
      requires Valid()
      modifies this
      ensures Valid() && Sane(old(View()))
      ensures accepts == Accepts(old(View()), id, key, work)
      ensures View() == Apply(old(View()), RpcBudgetModel.Acquire(id, key, work, now))
    {
      InvSane(View());
      accepts := Admits(id, key, work);
      if accepts {
        AddWaiter(id, key, work, now);
        DrainNow(now);
      }
    }

    method EndLease(id: Id)
      requires Valid()
      modifies `leases, `gapInFlight
      ensures Valid() && View() == DropLease(old(View()), id)
    {
      hide Inv;
      DropLeaseKeeps(View(), id);
      if id in leases {
        gapInFlight, leases := gapInFlight - (if leases[id].work.GapRepair? then 1 else 0), leases - {id};
      }
    }

    method Release(id: Id, now: int)
      requires Valid()
      modifies this
      ensures Valid() && Sane(old(View()))
      ensures View() == Apply(old(View()), RpcBudgetModel.Release(id, now))
    {
      hide Drain, DropLease, Inv, Sane;
      InvSane(View());
      EndLease(id);
      DrainNow(now);
    }

    method Cancel(id: Id, now: int)
      requires Valid()
      modifies this
      ensures Valid() && Sane(old(View()))
      ensures View() == Apply(old(View()), RpcBudgetModel.Cancel(id, now))
    {
      hide Drain, DropLease, Inv, Sane, Settle, First;
      ghost var s := View();
      InvSane(s);
      var i := First(pending, (r: Request) => r.id == id);
      WaiterIs(s, id, i);
      if i < |pending| {
        SettleKeeps(s, i, Deferred(pending[i].ticket));
        DeferAt(i);
      }
      Release(id, now);
    }

    method Fire(now: int)
      requires Valid()
      modifies this
      ensures Valid() && Sane(old(View()))
      ensures View() == Apply(old(View()), RpcBudgetModel.Fire(now))
    {
      hide Drain, Inv, Sane;
      DrainNow(now);
    }

    method Stop()
      requires Valid()
      modifies this
      ensures Valid() && Sane(old(View()))
      ensures View() == Apply(old(View()), RpcBudgetModel.Stop)
    {
      hide Drain, DeferAll, Inv, Sane;
      ghost var s := View();
      ApplyKeeps(s, RpcBudgetModel.Stop);
      RejectAll();
      stopped, timer, leases, gapInFlight := true, None, map[], 0;
    }

    method RejectAll()
      modifies `pending, `settled
      ensures View() == DeferAll(old(View()))
    {
      ghost var goal := DeferAll(View());
      while pending != []
        invariant DeferAll(View()) == goal
        decreases |pending|
      {
        DeferAt(0);
      }
    }
  }
}

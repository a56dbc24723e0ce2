/** What callers of the scheduler can rely on, in terms of requests, buckets and clock readings alone. */
module RpcBudgetService {
  import opened Common
  import Sequences
  import opened TokenBucket
  import opened RpcBudgetModel
  import opened RpcBudgetSafety
  import opened RpcBudgetOrder
  import opened RpcBudgetQuiescence
  import opened RpcBudgetAccounting
  import opened RpcBudgetReserve

  // ---------------------------------------------------------------- nothing servable is left

  /** The bucket has a token to give, up to one part in a thousand million. */
  ghost predicate Holds(b: Bucket, u: int) { b.limit.Unlimited? || Refill(b, u).tokens >= 0.999999999 }

  /** Nothing but a missing token or the cap on gap work keeps the request waiting. */
  ghost predicate Unservable(s: State, r: Request, u: int) {
    && r.key in s.endpoints
    && var e := s.endpoints[r.key];
       if r.work.Main? then !Holds(e.total, u)
       else match s.gap
         case Disabled => false
         case UnlimitedGap => !Holds(e.total, u)
         case LimitedGap(_, cap) =>
           s.gapInFlight >= cap || !Holds(e.total, u) || (e.gap.Some? && !Holds(e.gap.value, u))
  }

  /** After a drain every waiter is within its time and cannot be served, and every lease is within its time. */
  lemma DrainLeavesNothing(s: State, now: int)
    requires Inv(s) && !s.stopped
    ensures Sane(s)
    ensures var t := Drain(s, now);
            && (forall r :: r in t.pending ==> r.expiresAt > now && Unservable(t, r, now))
            && (forall id :: id in t.leases ==> t.leases[id].expiresAt > now)
  {
    DrainConserves(s, now);
    DrainKeeps(s, now);
    var t := Drain(s, now);
    forall r | r in t.pending ensures r.expiresAt > now && Unservable(t, r, now) {
      assert !Grantable(t, r, now);
      UngrantableIs(t, r, now);
    }
  }

  lemma UngrantableIs(t: State, r: Request, now: int)
    requires Inv(t) && r in t.pending && !Grantable(t, r, now)
    ensures Unservable(t, r, now)
  {
    hide Refill;
    assert EndpointOk(t.endpoints[r.key], t.gap);
  }

  // ---------------------------------------------------------------- the timer is not late

  ghost predicate ShortOfToken(b: Bucket, u: int) { b.limit.Limited? && Refill(b, u).tokens < 1.0 }

  /** The request still lacks a full token, or gap work is at its cap. */
  ghost predicate StillShort(s: State, r: Request, u: int) {
    && r.key in s.endpoints
    && var e := s.endpoints[r.key];
       if r.work.Main? then ShortOfToken(e.total, u)
       else
         || (s.gap.LimitedGap? && s.gapInFlight >= s.gap.maxInFlight)
         || ShortOfToken(e.total, u)
         || (e.gap.Some? && ShortOfToken(e.gap.value, u))
  }

  lemma ShortBefore(b: Bucket, now: int, v: nat)
    requires Valid(b) && v < WaitMs(b, now)
    ensures ShortOfToken(b, now + v)
  {
    WaitMinimal(b, now, v);
    hide Refill;
  }

  lemma WaiterShort(t: State, r: Request, now: int, v: nat)
    requires Inv(t) && Sane(t) && r in t.pending
    requires r.work.Main? || CanStartGap(t) ==> v < MaxWait(t, r, now)
    ensures StillShort(t, r, now + v)
  {
    hide WaitMs, ShortOfToken;
    var e := t.endpoints[r.key];
    assert EndpointOk(e, t.gap);
    if r.work.Main? {
      ShortBefore(e.total, now, v);
    } else if CanStartGap(t) {
      if v < WaitMs(e.total, now) { ShortBefore(e.total, now, v); } else { ShortBefore(e.gap.value, now, v); }
    }
  }

  /** Somebody waits exactly while the timer is armed, and until it is due nothing could have been done: no
      lease lapses, no waiter expires, no main request has a full token on its endpoint, and no gap request
      below the cap has one in both buckets. */
  lemma Promptness(s: State, now: int, u: int)
    requires Inv(s) && !s.stopped
    ensures Sane(s)
    ensures var t := Drain(s, now);
            && (t.timer.None? <==> t.pending == [])
            && (t.timer.Some? ==> t.timer.value > now)
            && (t.timer.Some? && now <= u < t.timer.value ==>
                  && (forall id :: id in t.leases ==> t.leases[id].expiresAt > u)
                  && (forall r :: r in t.pending ==> r.expiresAt > u && StillShort(t, r, u)))
  {
    DrainArms(s, now);
    DrainConserves(s, now);
    var t := Drain(s, now);
    hide Inv, Drain, StillShort;
    if t.timer.Some? && now <= u < t.timer.value {
      var w :| IsLeast(Delays(t, now), w) && t.timer == Some(now + Max(1, w));
      PromptDelays(t, now, u, w);
    }
  }

  lemma PromptDelays(t: State, now: int, u: int, w: int)
    requires Inv(t) && Sane(t) && t.pending != [] && IsLeast(Delays(t, now), w) && now <= u < now + Max(1, w)
    requires NothingGrantable(t, now) && Unexpired(t, now) && LeasesLive(t, now)
    ensures forall id :: id in t.leases ==> t.leases[id].expiresAt > u
    ensures forall r :: r in t.pending ==> r.expiresAt > u && StillShort(t, r, u)
  {
    hide Inv, StillShort;
    forall id | id in t.leases ensures t.leases[id].expiresAt > u {
      assert t.leases[id].expiresAt - now in Delays(t, now);
    }
    forall r | r in t.pending ensures r.expiresAt > u && StillShort(t, r, u) {
      assert r.expiresAt - now in Delays(t, now);
      if r.work.Main? || CanStartGap(t) {
        assert MaxWait(t, r, now) in Delays(t, now);
        WaitPositive(t, r, now);
      }
      WaiterShort(t, r, now, u - now);
    }
  }

  lemma WaitPositive(t: State, r: Request, now: int)
    requires Inv(t) && Sane(t) && r in t.pending && !Grantable(t, r, now) && (r.work.Main? || CanStartGap(t))
    ensures MaxWait(t, r, now) >= 1
  {
    hide Refill;
    assert EndpointOk(t.endpoints[r.key], t.gap);
  }

  // ---------------------------------------------------------------- acceptance

  /** An acquire is accepted exactly when none of the six reasons to refuse it applies: the scheduler is
      stopped, 1024 requests wait, the endpoint is unknown, the id waits or holds a lease, or gap work is
      disabled. A refused acquire changes nothing. */
  lemma AcquireAccepted(s: State, id: Id, key: Key, work: Work, now: int)
    requires Inv(s)
    ensures Sane(s)
    ensures var t := Apply(s, Acquire(id, key, work, now));
            var refused :=
              || s.stopped || |s.pending| >= 1024 || key !in s.endpoints || id in s.leases
              || (exists r :: r in s.pending && r.id == id)
              || (work == GapRepair && s.gap == Disabled);
            && (refused ==> t == s)
            && (!refused ==> t.accepted == s.accepted + 1)
  {
    InvSane(s);
    if Accepts(s, id, key, work) { AcquireOutcome(s, id, key, work, now); }
    hide Inv, Sane, Drain;
  }

  // ---------------------------------------------------------------- everybody else

  /** The step is a cancellation of this id, or a release of it. */
  predicate Names(step: Step, id: Id) { (step.Cancel? || step.Release?) && step.id == id }

  lemma WaiterBefore(s: State, step: Step, r: Request)
    requires r in s.pending && !(step.Cancel? && step.id == r.id)
    ensures r in Before(s, step).pending && Before(s, step).leaseMs == s.leaseMs
    ensures s.settled <= Before(s, step).settled
  {
    hide DropWaiter;
    if step.Cancel? { OtherWaiter(s, step.id, r); }
  }

  lemma OtherWaiter(s: State, id: Id, r: Request)
    requires r in s.pending && r.id != id
    ensures r in DropWaiter(s, id).pending && DropWaiter(s, id).leaseMs == s.leaseMs
    ensures s.settled <= DropWaiter(s, id).settled
  {
    hide RemoveAt;
    var i := First(s.pending, (q: Request) => q.id == id);
    if i < |s.pending| { Others(s.pending, i, r); }
  }

  lemma LeaseBefore(s: State, step: Step, id: Id)
    requires id in s.leases && !Names(step, id)
    ensures id in Before(s, step).leases && Before(s, step).leases[id] == s.leases[id]
  {
    hide RemoveAt, First;
  }

  /** Whatever the step, a waiter it does not cancel is deferred if its time is up and otherwise keeps waiting
      or is granted a lease of the configured length. */
  lemma OthersAccounted(s: State, step: Step, r: Request)
    requires Inv(s) && !s.stopped && Drains(s, step) && r in s.pending && !(step.Cancel? && step.id == r.id)
    ensures Sane(s)
    ensures var t, u := Apply(s, step), TimeOf(step, 0);
            && (r.expiresAt <= u ==> WasDeferred(s, t, r))
            && (r.expiresAt > u ==> r in t.pending || WasGranted(s, t, r, u))
  {
    hide Inv, Sane, Drain, Drains, Before, Apply, TimeOf, WasDeferred, WasGranted;
    BeforeKeeps(s, step);
    BeforeDrain(s, step);
    var b, u := Before(s, step), TimeOf(step, 0);
    WaiterBefore(s, step, r);
    DrainAccounts(b, u, r);
    DrainExtends(b, u);
    if r.expiresAt <= u {
      DeferredStays(s, b, Drain(b, u), r);
    } else if r !in Drain(b, u).pending {
      GrantedFrom(b, Drain(b, u), r, u, s, Drain(b, u));
    }
  }

  /** And a lease it does not name is reclaimed if its time is up and otherwise untouched. */
  lemma OtherLeasesKept(s: State, step: Step, id: Id)
    requires Inv(s) && !s.stopped && Drains(s, step) && id in s.leases && !Names(step, id)
    ensures Sane(s)
    ensures var t, u := Apply(s, step), TimeOf(step, 0);
            && (s.leases[id].expiresAt > u ==> id in t.leases && t.leases[id] == s.leases[id])
            && (s.leases[id].expiresAt <= u ==> id !in t.leases)
  {
    hide Inv, Sane, Drain, Drains, Before, Apply, TimeOf;
    BeforeKeeps(s, step);
    BeforeDrain(s, step);
    LeaseBefore(s, step, id);
    DrainLeases(Before(s, step), TimeOf(step, 0), id);
  }

  function Rejections(rs: seq<Request>): (os: seq<Outcome>)
    ensures |os| == |rs| && forall i :: 0 <= i < |rs| ==> os[i] == Deferred(rs[i].ticket)
  {
    seq(|rs|, i requires 0 <= i < |rs| => Deferred(rs[i].ticket))
  }

  lemma {:induction false} DeferAllRejects(s: State)
    ensures DeferAll(s).settled == s.settled + Rejections(s.pending)
    decreases |s.pending|
  {
    if s.pending == [] {
      assert Rejections(s.pending) == [];
    } else {
      hide Rejections, Defer;
      FirstDeferred(s);
      DeferAllRejects(Defer(s, 0));
      RejectionsCons(s.pending);
      Sequences.Regroup(s.settled, [Deferred(s.pending[0].ticket)], Rejections(s.pending[1..]));
      assert DeferAll(s) == DeferAll(Defer(s, 0));
    }
  }

  lemma FirstDeferred(s: State)
    requires s.pending != []
    ensures Defer(s, 0).pending == s.pending[1..]
    ensures Defer(s, 0).settled == s.settled + [Deferred(s.pending[0].ticket)]
  {
  }

  lemma RejectionsCons(rs: seq<Request>)
    requires rs != []
    ensures Rejections(rs) == [Deferred(rs[0].ticket)] + Rejections(rs[1..])
  {
    hide Rejections;
  }

  /** Stopping rejects the waiters in their order, and grants nobody. */
  lemma StopRejects(s: State)
    requires Inv(s)
    ensures Sane(s) && Apply(s, Stop).settled == s.settled + Rejections(s.pending)
  {
    InvSane(s);
    DeferAllRejects(s);
    hide Inv, Sane, DeferAll;
  }

  // ---------------------------------------------------------------- a new scheduler

  /** The last configuration of a key. */
  ghost predicate LastFor(configs: seq<(Key, Limit)>, k: Key, i: nat) {
    i < |configs| && configs[i].0 == k && forall j :: i < j < |configs| ==> configs[j].0 != k
  }

  /** Every configured key has an endpoint with the limit configured last for it, its bucket full; in limited
      mode also a gap bucket of that rate and a burst of one, full. */
  lemma {:induction false} NewEndpointsExactly(configs: seq<(Key, Limit)>, gap: GapAllocation, now: int, k: Key, i: nat)
    requires LastFor(configs, k, i)
    ensures k in NewEndpoints(configs, gap, now)
    ensures var e := NewEndpoints(configs, gap, now)[k];
            && e.total.limit == configs[i].1 && e.total.last == now
            && (e.total.limit.Limited? ==> e.total.tokens == e.total.limit.burst as real)
            && e.gap == if gap.LimitedGap? then Some(Bucket(Limited(gap.rate, 1), 1.0, now)) else None
  {
    var n := |configs| - 1;
    if i < n {
      var rest := configs[..n];
      assert LastFor(rest, k, i) by {
        assert forall j :: 0 <= j < n ==> rest[j] == configs[j];
      }
      hide LastFor;
      NewEndpointsExactly(rest, gap, now, k, i);
      assert rest[i] == configs[i];
      assert configs[n].0 != k by { NotLast(configs, k, i); }
    }
  }

  lemma NotLast(configs: seq<(Key, Limit)>, k: Key, i: nat)
    requires LastFor(configs, k, i) && i < |configs| - 1
    ensures configs[|configs| - 1].0 != k
  {
  }

  /** Nothing else has an endpoint. */
  lemma {:induction false} OnlyConfigured(configs: seq<(Key, Limit)>, gap: GapAllocation, now: int, k: Key)
    requires forall i :: 0 <= i < |configs| ==> configs[i].0 != k
    ensures k !in NewEndpoints(configs, gap, now)
  {
    if configs != [] {
      var n := |configs| - 1;
      OnlyConfigured(configs[..n], gap, now, k);
      assert configs[n].0 != k;
    }
  }
}

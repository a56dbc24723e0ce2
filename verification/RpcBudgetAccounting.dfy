/** Nothing is lost or invented by a step: where every waiter and every lease ends up. */
module RpcBudgetAccounting {
  import opened Common
  import opened RpcBudgetModel
  import opened RpcBudgetSafety
  import opened RpcBudgetOrder

  ghost predicate WasGranted(s: State, t: State, r: Request, now: int) {
    && Granted(r.ticket, r.key, r.work) in t.settled[Min(|s.settled|, |t.settled|)..]
    && r.id in t.leases && t.leases[r.id] == Lease(r.key, r.work, now + s.leaseMs)
  }

  ghost predicate SameLeases(s: State, t: State) {
    forall id :: id in s.leases ==> id in t.leases && t.leases[id] == s.leases[id]
  }

  /** A scan only refills buckets. */
  lemma ScanRest(s: State, now: int)
    ensures Scan(s, now) == s.(endpoints := Scan(s, now).endpoints)
  {
  }

  lemma GrantPassLeases(s: State, now: int)
    requires Inv(s) && Sane(s) && !s.stopped && Pick(s, now) < |s.pending|
    ensures
      var i := Pick(s, now);
      s.pending[i].key in Scan(s, now).endpoints && SameLeases(s, Grant(Scan(s, now), i, now))
  {
    ScanRest(s, now);
    hide Inv, Sane, Scan;
    GrantStep(s, now);
  }

  /** The grant loop never touches an existing lease. */
  lemma {:induction false} GrantAllLeases(s: State, now: int)
    requires Inv(s) && Sane(s) && !s.stopped
    ensures SameLeases(s, GrantAll(s, now)) && GrantAll(s, now).leaseMs == s.leaseMs
    decreases |s.pending|
  {
    hide Inv, Sane;
    if Pick(s, now) < |s.pending| {
      GrantPassLeases(s, now);
      GrantStep(s, now);
      GrantAllLeases(Grant(Scan(s, now), Pick(s, now), now), now);
    }
  }

  lemma Later(s: State, g: State, t: State, r: Request, now: int)
    requires s.settled <= g.settled <= t.settled && g.leaseMs == s.leaseMs
    requires WasGranted(g, t, r, now) || (WasGranted(s, g, r, now) && SameLeases(g, t))
    ensures WasGranted(s, t, r, now)
  {
    NewOutcome(s.settled, g.settled, t.settled, Granted(r.ticket, r.key, r.work));
  }

  /** What was settled in either half of a window was settled in the window. */
  lemma NewOutcome(a: seq<Outcome>, b: seq<Outcome>, c: seq<Outcome>, o: Outcome)
    requires a <= b <= c
    ensures o in b[|a|..] || o in c[|b|..] ==> o in c[|a|..]
  {
    if o in b[|a|..] {
      var k :| 0 <= k < |b| - |a| && b[|a|..][k] == o;
      assert b[|a| + k] == o && c[|a| + k] == b[|a| + k];
      assert c[|a|..][k] == c[|a| + k];
    } else if o in c[|b|..] {
      var k :| 0 <= k < |c| - |b| && c[|b|..][k] == o;
      assert c[|b| + k] == o;
      assert c[|a|..][|b| - |a| + k] == c[|b| + k];
    }
  }

  lemma Others(rs: seq<Request>, i: nat, r: Request)
    requires i < |rs| && r in rs && r != rs[i]
    ensures r in RemoveAt(rs, i)
  {
    var j :| 0 <= j < |rs| && rs[j] == r;
    assert RemoveAt(rs, i)[if j < i then j else j - 1] == r;
  }

  lemma PickedGranted(s: State, i: nat, now: int)
    requires i < |s.pending| && s.pending[i].key in Scan(s, now).endpoints
    ensures WasGranted(s, Grant(Scan(s, now), i, now), s.pending[i], now)
    ensures forall r :: r in s.pending ==> r == s.pending[i] || r in Grant(Scan(s, now), i, now).pending
  {
    hide RemoveAt, Spend, Scan;
    var c := Scan(s, now);
    ScanRest(s, now);
    var g := Grant(c, i, now);
    var o := Granted(s.pending[i].ticket, s.pending[i].key, s.pending[i].work);
    assert g.settled == s.settled + [o];
    assert g.settled[|s.settled|..] == [o];
    forall r | r in s.pending && r != s.pending[i] ensures r in g.pending {
      Others(s.pending, i, r);
    }
  }

  /** The grant loop keeps a waiter or grants it, with a lease of the configured length. */
  lemma {:induction false} GrantAllAccounts(s: State, now: int, r: Request)
    requires Inv(s) && Sane(s) && !s.stopped && r in s.pending
    ensures r in GrantAll(s, now).pending || WasGranted(s, GrantAll(s, now), r, now)
    decreases |s.pending|
  {
    hide Inv, Sane, Scan, Pick, WasGranted, SameLeases;
    ScanRest(s, now);
    if Pick(s, now) < |s.pending| {
      var i := Pick(s, now);
      GrantStep(s, now);
      var g := Grant(Scan(s, now), i, now);
      PickedGranted(s, i, now);
      GrantExtends(s, i, now);
      GrantAllExtends(g, now);
      GrantAllLeases(g, now);
      if r in g.pending { GrantAllAccounts(g, now, r); }
      if r !in GrantAll(g, now).pending { Later(s, g, GrantAll(g, now), r, now); }
    }
  }

  ghost predicate WasDeferred(s: State, t: State, r: Request) {
    Deferred(r.ticket) in t.settled[Min(|s.settled|, |t.settled|)..]
  }

  lemma DeferredStays(s: State, b: State, t: State, r: Request)
    requires s.settled <= b.settled <= t.settled && (WasDeferred(s, b, r) || WasDeferred(b, t, r))
    ensures WasDeferred(s, t, r)
  {
    NewOutcome(s.settled, b.settled, t.settled, Deferred(r.ticket));
  }

  lemma SameSettled(s: State, a: State, t: State, r: Request)
    requires a.settled == s.settled && WasDeferred(a, t, r)
    ensures WasDeferred(s, t, r)
  {
  }

  lemma SameLater(s: State, t: State, u: State, r: Request)
    requires t.settled == u.settled && WasDeferred(s, t, r)
    ensures WasDeferred(s, u, r)
  {
  }

  lemma SameGranted(s: State, e: State, t: State, r: Request, now: int)
    requires e.settled == s.settled && e.leaseMs == s.leaseMs
    ensures WasGranted(e, t, r, now) == WasGranted(s, t, r, now)
  {
  }

  lemma DeferredNow(s: State, i: nat)
    requires i < |s.pending|
    ensures s.settled <= Defer(s, i).settled && WasDeferred(s, Defer(s, i), s.pending[i])
  {
    assert Defer(s, i).settled[|s.settled|..] == [Deferred(s.pending[i].ticket)];
  }

  lemma {:induction false} ExpireAccounts(s: State, now: int, r: Request)
    requires r in s.pending
    ensures r.expiresAt > now ==> r in Expire(s, now).pending
    ensures r.expiresAt <= now ==> WasDeferred(s, Expire(s, now), r)
    decreases |s.pending|
  {
    var i := FirstExpired(s, now);
    assert i == |s.pending| ==> r.expiresAt > now;
    hide WasDeferred, RemoveAt, FirstExpired;
    if i < |s.pending| {
      var t := Defer(s, i);
      DeferredNow(s, i);
      ExpireDefers(t, now);
      if r != s.pending[i] {
        Others(s.pending, i, r);
        ExpireAccounts(t, now, r);
      }
      if r.expiresAt <= now { DeferredStays(s, t, Expire(t, now), r); }
    }
  }

  lemma {:induction false} ExpireLeaseMs(s: State, now: int)
    ensures Expire(s, now).leaseMs == s.leaseMs
    decreases |s.pending|
  {
    var i := FirstExpired(s, now);
    if i < |s.pending| { ExpireLeaseMs(Defer(s, i), now); }
  }

  /** A drain settles exactly the waiters it must or may: an expired one is deferred, any other keeps
      waiting or is granted a lease that lasts the configured time. */
  lemma DrainAccounts(s: State, now: int, r: Request)
    requires Inv(s) && !s.stopped && r in s.pending
    ensures Sane(s)
    ensures r.expiresAt <= now ==> WasDeferred(s, Drain(s, now), r)
    ensures r.expiresAt > now ==> r in Drain(s, now).pending || WasGranted(s, Drain(s, now), r, now)
  {
    hide Inv, Sane, GrantAll, Expire, WasDeferred, WasGranted;
    InvSane(s);
    var a := Reclaim(s, now);
    var b := Swept(s, now);
    assert b == Expire(a, now) && a.settled == s.settled && a.leaseMs == s.leaseMs && r in a.pending;
    SweptKeeps(s, now);
    ExpireAccounts(a, now, r);
    ExpireLeaseMs(a, now);
    ExpireDefers(a, now);
    GrantAllExtends(b, now);
    var t, d := GrantAll(b, now), Drain(s, now);
    assert d.pending == t.pending && d.settled == t.settled && d.leases == t.leases;
    if r.expiresAt > now {
      GrantAllAccounts(b, now, r);
      if r !in t.pending {
        GrantedFrom(b, t, r, now, s, d);
      }
    } else {
      SameSettled(s, a, b, r);
      DeferredStays(s, b, d, r);
    }
  }

  lemma GrantedFrom(b: State, t: State, r: Request, now: int, s: State, d: State)
    requires WasGranted(b, t, r, now) && s.settled <= b.settled <= t.settled && b.leaseMs == s.leaseMs
    requires d.settled == t.settled && d.leases == t.leases
    ensures WasGranted(s, d, r, now)
  {
    Later(s, b, t, r, now);
  }

  /** A drain takes back exactly the lapsed leases and leaves the others alone. */
  lemma DrainLeases(s: State, now: int, id: Id)
    requires Inv(s) && !s.stopped && id in s.leases
    ensures Sane(s)
    ensures s.leases[id].expiresAt > now ==> id in Drain(s, now).leases && Drain(s, now).leases[id] == s.leases[id]
    ensures s.leases[id].expiresAt <= now ==> id !in Drain(s, now).leases
  {
    hide Sane, GrantAll, Expire;
    InvSane(s);
    var b := Swept(s, now);
    SweptKeeps(s, now);
    assert b.leases == s.leases - Lapsed(s.leases, now).Keys by { ExpireExpires(Reclaim(s, now), now); }
    GrantAllLeases(b, now);
    assert Drain(s, now).leases == GrantAll(b, now).leases;
    if s.leases[id].expiresAt <= now {
      assert forall r :: r in b.pending ==> r in s.pending by { ExpireShrinks(Reclaim(s, now), now); }
      NoLeaseFor(b, now, id);
    }
  }

  lemma {:induction false} ExpireShrinks(s: State, now: int)
    ensures forall r :: r in Expire(s, now).pending ==> r in s.pending
    decreases |s.pending|
  {
    var i := FirstExpired(s, now);
    if i < |s.pending| {
      ExpireShrinks(Defer(s, i), now);
      assert forall r :: r in Defer(s, i).pending ==> r in s.pending;
    }
  }

  /** Only waiters are granted leases. */
  lemma {:induction false} NoLeaseFor(s: State, now: int, id: Id)
    requires Sane(s) && id !in s.leases && forall r :: r in s.pending ==> r.id != id
    ensures id !in GrantAll(s, now).leases
    decreases |s.pending|
  {
    hide Sane, Pick, Scan;
    ScanSane(s, now);
    ScanRest(s, now);
    if Pick(s, now) < |s.pending| {
      var i := Pick(s, now);
      GrantSane(Scan(s, now), i, now);
      GrantExtends(s, i, now);
      assert s.pending[i] in s.pending;
      NoLeaseFor(Grant(Scan(s, now), i, now), now, id);
    }
  }

  /** What an accepted acquire leads to at once: a lease of the configured length, or a place in the
      queue for thirty seconds. */
  lemma AcquireOutcome(s: State, id: Id, key: Key, work: Work, now: int)
    requires Inv(s) && Accepts(s, id, key, work)
    ensures Sane(s)
    ensures
      var t, r := Apply(s, Acquire(id, key, work, now)), Request(s.accepted, id, key, work, now + WAIT_MS);
      t.accepted == s.accepted + 1 && (r in t.pending || WasGranted(s, t, r, now))
  {
    hide Inv, Sane, WasGranted, Drain;
    InvSane(s);
    EnqueueKeeps(s, id, key, work, now);
    var e := Enqueue(s, id, key, work, now);
    var r := Request(s.accepted, id, key, work, now + WAIT_MS);
    assert r == e.pending[|s.pending|];
    DrainAccounts(e, now, r);
    assert e.settled == s.settled && e.leaseMs == s.leaseMs && !e.stopped;
    SameGranted(s, e, Drain(e, now), r, now);
    DrainAccepted(e, now);
  }

  lemma DrainAccepted(s: State, now: int)
    requires Sane(s)
    ensures Drain(s, now).accepted == s.accepted
  {
    hide Sane;
    if !s.stopped {
      ExpireAccepted(Reclaim(s, now), now);
      GrantAllAccepted(Swept(s, now), now);
    }
  }

  lemma {:induction false} ExpireAccepted(s: State, now: int)
    ensures Expire(s, now).accepted == s.accepted
    decreases |s.pending|
  {
    var i := FirstExpired(s, now);
    if i < |s.pending| { ExpireAccepted(Defer(s, i), now); }
  }

  lemma {:induction false} GrantAllAccepted(s: State, now: int)
    requires Sane(s)
    ensures GrantAll(s, now).accepted == s.accepted
    decreases |s.pending|
  {
    ScanSane(s, now);
    if Pick(s, now) < |s.pending| {
      GrantSane(Scan(s, now), Pick(s, now), now);
      GrantAllAccepted(Grant(Scan(s, now), Pick(s, now), now), now);
    }
  }

  ghost predicate Absent(s: State, id: Id) { id !in s.leases && forall r :: r in s.pending ==> r.id != id }

  /** A drain brings no id back. */
  lemma DrainAbsent(s: State, now: int, id: Id)
    requires Sane(s) && Absent(s, id)
    ensures Absent(Drain(s, now), id)
  {
    hide Sane, GrantAll, Expire;
    if !s.stopped {
      var a := Reclaim(s, now);
      var b := Swept(s, now);
      ExpireShrinks(a, now);
      ExpireExpires(a, now);
      GrantAllExtends(b, now);
      NoLeaseFor(b, now, id);
    }
  }

  lemma DroppedAbsent(s: State, id: Id)
    requires IdsApart(s.pending, s.leases)
    ensures Absent(DropLease(DropWaiter(s, id), id), id)
  {
    var i := First(s.pending, (r: Request) => r.id == id);
    if i < |s.pending| {
      var t := Defer(s, i);
      forall j | 0 <= j < |t.pending| ensures t.pending[j].id != id {
        assert t.pending[j] == s.pending[if j < i then j else j + 1];
      }
    } else {
      assert forall j :: 0 <= j < |s.pending| ==> s.pending[j].id != id;
    }
  }

  /** Cancelling leaves no trace of the id, and a waiter that is cancelled is deferred, never granted. */
  lemma CancelRemoves(s: State, id: Id, now: int)
    requires Inv(s)
    ensures Sane(s) && Absent(Apply(s, Cancel(id, now)), id)
    ensures forall r :: r in s.pending && r.id == id ==> WasDeferred(s, Apply(s, Cancel(id, now)), r)
  {
    hide Sane, Drain, WasDeferred, Absent;
    InvSane(s);
    var w := DropWaiter(s, id);
    var d := DropLease(w, id);
    DroppedAbsent(s, id);
    DroppedSane(s, id);
    DrainAbsent(d, now, id);
    DrainExtends(d, now);
    forall r | r in s.pending && r.id == id ensures WasDeferred(s, Drain(d, now), r) {
      var i := First(s.pending, (q: Request) => q.id == id);
      var j :| 0 <= j < |s.pending| && s.pending[j] == r;
      assert i == j;
      DeferredNow(s, i);
      SameLater(s, w, d, r);
      DeferredStays(s, d, Drain(d, now), r);
    }
  }

  lemma DroppedSane(s: State, id: Id)
    requires Sane(s)
    ensures Sane(DropLease(DropWaiter(s, id), id))
  {
    hide ValidEndpoint;
    var w := DropWaiter(s, id);
    assert forall r :: r in w.pending ==> r in s.pending;
  }

  lemma LeaseSane(s: State, id: Id)
    requires Sane(s)
    ensures Sane(DropLease(s, id))
  {
  }

  lemma DrainExtends(s: State, now: int)
    requires Sane(s)
    ensures s.settled <= Drain(s, now).settled
  {
    hide Sane, GrantAll, Expire;
    if !s.stopped {
      SweptDefers(s, now);
      GrantAllExtends(Swept(s, now), now);
    }
  }

  /** Releasing frees the id, the gap counter again counts the gap leases that are left, and a freed slot
      does not stay idle: nothing that could use it is left waiting. */
  lemma ReleaseFrees(s: State, id: Id, now: int)
    requires Inv(s) && id in s.leases
    ensures Sane(s) && Absent(Apply(s, Release(id, now)), id)
    ensures DropLease(s, id).gapInFlight == |GapLeases(s.leases - {id})|
    ensures NothingGrantable(Apply(s, Release(id, now)), now)
  {
    hide Sane, Drain;
    InvSane(s);
    LeaseSane(s, id);
    DropLeaseKeeps(s, id);
    assert Absent(DropLease(s, id), id);
    DrainAbsent(DropLease(s, id), now, id);
    assert !s.stopped;
    DrainConserves(DropLease(s, id), now);
  }
}

/** The request scheduler of shared/evm/rpc-budget.ts as a function on values: one call or timer firing
    is one step, and the clock reading is an argument that holds for the whole step. */
module RpcBudgetModel {
  import opened Common
  import opened TokenBucket

  const MAX_PENDING := 1024
  const WAIT_MS := 30000

  type Key = string
  type Id = string

  datatype Work = Main | GapRepair

  datatype GapAllocation = Disabled | UnlimitedGap | LimitedGap(rate: real, maxInFlight: int)

  /** `ticket` numbers the accepted acquires: it stands for the promise handed to that caller. */
  datatype Request = Request(ticket: nat, id: Id, key: Key, work: Work, expiresAt: int)

  datatype Lease = Lease(key: Key, work: Work, expiresAt: int)

  datatype Endpoint = Endpoint(total: Bucket, gap: Option<Bucket>)

  /** How a promise settled. */
  datatype Outcome =
    | Granted(ticket: nat, key: Key, work: Work)
    | Deferred(ticket: nat)

  datatype State = State(
    gap: GapAllocation,
    leaseMs: int,
    endpoints: map<Key, Endpoint>,
    pending: seq<Request>,       // insertion order of the pending map
    leases: map<Id, Lease>,
    gapInFlight: int,
    timer: Option<int>,          // clock reading at which the armed timer is due
    stopped: bool,
    accepted: nat,
    settled: seq<Outcome>)

  // ---------------------------------------------------------------- configuration

  predicate ValidGap(gap: GapAllocation, limits: seq<Limit>) {
    gap.LimitedGap? ==>
      && gap.rate > 0.0
      && 1 <= gap.maxInFlight <= MAX_SAFE_INTEGER
      && forall i :: 0 <= i < |limits| && limits[i].Limited? ==> gap.rate < limits[i].rate
  }

  predicate ValidConfig(configs: seq<(Key, Limit)>, gap: GapAllocation, leaseMs: int) {
    && ValidGap(gap, seq(|configs|, i requires 0 <= i < |configs| => configs[i].1))
    && 1 <= leaseMs <= MAX_SAFE_INTEGER
    && forall i :: 0 <= i < |configs| ==> ValidLimit(configs[i].1)
  }

  function NewEndpoint(limit: Limit, gap: GapAllocation, now: int): Endpoint {
    Endpoint(Full(limit, now), if gap.LimitedGap? then Some(Full(Limited(gap.rate, 1), now)) else None)
  }

  /** A later entry for the same key replaces the earlier one. */
  function NewEndpoints(configs: seq<(Key, Limit)>, gap: GapAllocation, now: int): map<Key, Endpoint> {
    if configs == [] then map[]
    else
      var c := configs[|configs| - 1];
      NewEndpoints(configs[..|configs| - 1], gap, now)[c.0 := NewEndpoint(c.1, gap, now)]
  }

  function Initial(configs: seq<(Key, Limit)>, gap: GapAllocation, leaseMs: int, now: int): State {
    State(gap, leaseMs, NewEndpoints(configs, gap, now), [], map[], 0, None, false, 0, [])
  }

  // ---------------------------------------------------------------- which buckets a scan refills

  function TouchTotals(es: map<Key, Endpoint>, keys: set<Key>, now: int): map<Key, Endpoint> {
    map k | k in es :: if k in keys then es[k].(total := Refill(es[k].total, now)) else es[k]
  }

  function TouchGaps(es: map<Key, Endpoint>, keys: set<Key>, now: int): map<Key, Endpoint> {
    map k | k in es ::
      if k in keys && es[k].gap.Some? then es[k].(gap := Some(Refill(es[k].gap.value, now))) else es[k]
  }

  function KeysOf(rs: seq<Request>): set<Key> { set r | r in rs :: r.key }

  // ---------------------------------------------------------------- choosing a request

  predicate CanStartGap(s: State) {
    s.gap.UnlimitedGap? || (s.gap.LimitedGap? && s.gapInFlight < s.gap.maxInFlight)
  }

  predicate TotalReady(s: State, r: Request, now: int) {
    r.key in s.endpoints && Ready(s.endpoints[r.key].total, now)
  }

  predicate GapReady(s: State, r: Request, now: int) {
    r.key in s.endpoints && (s.endpoints[r.key].gap.None? || Ready(s.endpoints[r.key].gap.value, now))
  }

  predicate MainGrantable(s: State, r: Request, now: int) {
    r.work.Main? && TotalReady(s, r, now)
  }

  predicate GapGrantable(s: State, r: Request, now: int) {
    r.work.GapRepair? && TotalReady(s, r, now) && GapReady(s, r, now)
  }

  predicate Grantable(s: State, r: Request, now: int) {
    MainGrantable(s, r, now) || (CanStartGap(s) && GapGrantable(s, r, now))
  }

  function NextMain(s: State, now: int): (i: nat)
    ensures i <= |s.pending|
  {
    First(s.pending, r => MainGrantable(s, r, now))
  }

  function NextGap(s: State, now: int): (i: nat)
    ensures i <= |s.pending|
  {
    if CanStartGap(s) then First(s.pending, r => GapGrantable(s, r, now)) else |s.pending|
  }

  /** Unlimited gap work yields to a ready main request; a limited reservation is claimed first. */
  function Choose(gap: GapAllocation, main: nat, gapWork: nat, none: nat): nat {
    if gap.UnlimitedGap? then (if main < none then main else gapWork)
    else (if gapWork < none then gapWork else main)
  }

  /** Index of the request the loop grants next, or |pending| when it stops. */
  function Pick(s: State, now: int): (i: nat)
    ensures i <= |s.pending|
  {
    Choose(s.gap, NextMain(s, now), NextGap(s, now), |s.pending|)
  }

  /** The gap buckets `find` consults: those of ready gap requests up to and including its hit. */
  function ConsultedGaps(s: State, now: int): set<Key> {
    if CanStartGap(s) then
      set r | r in s.pending[..Min(NextGap(s, now) + 1, |s.pending|)]
              && r.work.GapRepair? && TotalReady(s, r, now) :: r.key
    else {}
  }

  function Scan(s: State, now: int): State {
    s.(endpoints := TouchGaps(TouchTotals(s.endpoints, KeysOf(s.pending), now), ConsultedGaps(s, now), now))
  }

  // ---------------------------------------------------------------- the parts of one drain

  /** Remove the i-th waiter and settle its promise. */
  function Settle(s: State, i: nat, o: Outcome): State
    requires i < |s.pending|
  {
    s.(pending := RemoveAt(s.pending, i), settled := s.settled + [o])
  }

  function Defer(s: State, i: nat): State
    requires i < |s.pending|
  {
    Settle(s, i, Deferred(s.pending[i].ticket))
  }

  function SpendGap(e: Endpoint, now: int): Endpoint {
    if e.gap.Some? then e.(gap := Some(TryAcquire(e.gap.value, now))) else e
  }

  function Spend(e: Endpoint, work: Work, now: int): Endpoint {
    var t := e.(total := TryAcquire(e.total, now));
    if work.GapRepair? then SpendGap(t, now) else t
  }

  function Grant(s: State, i: nat, now: int): State
    requires i < |s.pending| && s.pending[i].key in s.endpoints
  {
    var r := s.pending[i];
    Settle(s, i, Granted(r.ticket, r.key, r.work)).(
      endpoints := s.endpoints[r.key := Spend(s.endpoints[r.key], r.work, now)],
      gapInFlight := s.gapInFlight + (if r.work.GapRepair? then 1 else 0),
      leases := s.leases[r.id := Lease(r.key, r.work, now + s.leaseMs)])
  }

  function GapLeases(leases: map<Id, Lease>): set<Id> {
    set id | id in leases && leases[id].work.GapRepair?
  }

  function Lapsed(leases: map<Id, Lease>, now: int): map<Id, Lease> {
    map id | id in leases && leases[id].expiresAt <= now :: leases[id]
  }

  function Reclaim(s: State, now: int): State {
    s.(leases := s.leases - Lapsed(s.leases, now).Keys,
       gapInFlight := s.gapInFlight - |GapLeases(Lapsed(s.leases, now))|)
  }

  function FirstExpired(s: State, now: int): (i: nat)
    ensures i <= |s.pending|
  {
    First(s.pending, (r: Request) => r.expiresAt <= now)
  }

  function Expire(s: State, now: int): State
    decreases |s.pending|
  {
    var i := FirstExpired(s, now);
    if i < |s.pending| then Expire(Defer(s, i), now) else s
  }

  predicate ValidEndpoint(e: Endpoint) {
    ValidLimit(e.total.limit) && (e.gap.Some? ==> ValidLimit(e.gap.value.limit))
  }

  /** Enough structure for every step to be defined. */
  predicate Sane(s: State) {
    && (forall k :: k in s.endpoints ==> ValidEndpoint(s.endpoints[k]))
    && (forall r :: r in s.pending ==> r.key in s.endpoints)
  }

  lemma {:induction false} ExpireSane(s: State, now: int)
    requires Sane(s)
    ensures Sane(Expire(s, now))
    decreases |s.pending|
  {
    var i := FirstExpired(s, now);
    if i < |s.pending| {
      assert forall r :: r in Defer(s, i).pending ==> r in s.pending;
      ExpireSane(Defer(s, i), now);
    }
  }

  lemma ScanSane(s: State, now: int)
    requires Sane(s)
    ensures Sane(Scan(s, now))
  {
  }

  lemma GrantSane(s: State, i: nat, now: int)
    requires Sane(s) && i < |s.pending|
    ensures Sane(Grant(s, i, now))
  {
    assert s.pending[i] in s.pending;
  }

  function GrantAll(s: State, now: int): (t: State)
    requires Sane(s)
    ensures Sane(t)
    decreases |s.pending|
  {
    var i, c := Pick(s, now), Scan(s, now);
    ScanSane(s, now);
    if i < |s.pending| then
      GrantSane(c, i, now);
      GrantAll(Grant(c, i, now), now) else c
  }

  // ---------------------------------------------------------------- re-arming the timer

  function MaxWait(s: State, r: Request, now: int): int
    requires r.key in s.endpoints && ValidEndpoint(s.endpoints[r.key])
  {
    var e := s.endpoints[r.key];
    if r.work.Main? || e.gap.None? then WaitMs(e.total, now)
    else Max(WaitMs(e.total, now), WaitMs(e.gap.value, now))
  }

  /** Every delay the re-arming loop takes the minimum of. */
  ghost function Delays(s: State, now: int): set<int>
    requires Sane(s)
  {
    if s.pending == [] then {}
    else
      (set r | r in s.pending :: r.expiresAt - now)
      + (set r | r in s.pending && (r.work.Main? || CanStartGap(s)) :: MaxWait(s, r, now))
      + (set id | id in s.leases :: s.leases[id].expiresAt - now)
  }

  ghost predicate IsLeast(ws: set<int>, w: int) { w in ws && forall v :: v in ws ==> w <= v }

  lemma {:induction false} LeastExists(ws: set<int>, w: int)
    requires w in ws
    ensures exists u :: IsLeast(ws, u)
    decreases ws
  {
    if v :| v in ws && v < w {
      LeastExists(ws - {w}, v);
      var u :| IsLeast(ws - {w}, u);
      assert v in ws - {w};
      assert forall x :: x in ws ==> x == w || x in ws - {w};
      assert IsLeast(ws, u);
    } else {
      assert IsLeast(ws, w);
    }
  }

  ghost function Least(ws: set<int>): (w: int)
    requires exists v :: v in ws
    ensures IsLeast(ws, w)
  {
    var v :| v in ws;
    LeastExists(ws, v);
    var w :| IsLeast(ws, w);
    w
  }

  /** Gap buckets the re-arming loop reads. The total buckets were already read at this clock reading by the
      last pass of the grant loop, so reading them again changes nothing. */
  function RearmGaps(s: State, rs: seq<Request>): set<Key> {
    if CanStartGap(s) then set r | r in rs && r.work.GapRepair? :: r.key else {}
  }

  ghost function Arm(s: State, now: int): State
    requires Sane(s)
  {
    s.(endpoints := TouchGaps(s.endpoints, RearmGaps(s, s.pending), now),
       timer := if s.pending == [] then None
                else
                  assert s.pending[0].expiresAt - now in Delays(s, now);
                  Some(now + Max(1, Least(Delays(s, now)))))
  }

  /** Lapsed leases and expired waiters go before anything is granted. */
  function Swept(s: State, now: int): (t: State)
    requires Sane(s)
    ensures Sane(t)
  {
    ExpireSane(Reclaim(s, now), now);
    Expire(Reclaim(s, now), now)
  }

  ghost function Drain(s: State, now: int): State
    requires Sane(s)
  {
    if s.stopped then s.(timer := None)
    else Arm(GrantAll(Swept(s, now), now), now)
  }

  // ---------------------------------------------------------------- public calls

  datatype Step =
    | Acquire(id: Id, key: Key, work: Work, now: int)
    | Cancel(id: Id, now: int)
    | Release(id: Id, now: int)
    | Fire(now: int)
    | Stop

  predicate Accepts(s: State, id: Id, key: Key, work: Work) {
    && !s.stopped
    && |s.pending| < MAX_PENDING
    && key in s.endpoints
    && (forall r :: r in s.pending ==> r.id != id)
    && id !in s.leases
    && !(work.GapRepair? && s.gap.Disabled?)
  }

  function Enqueue(s: State, id: Id, key: Key, work: Work, now: int): State {
    s.(pending := s.pending + [Request(s.accepted, id, key, work, now + WAIT_MS)], accepted := s.accepted + 1)
  }

  function DropWaiter(s: State, id: Id): State {
    var i := First(s.pending, (r: Request) => r.id == id);
    if i < |s.pending| then Defer(s, i) else s
  }

  function DropLease(s: State, id: Id): State {
    if id !in s.leases then s
    else s.(leases := s.leases - {id},
            gapInFlight := s.gapInFlight - (if s.leases[id].work.GapRepair? then 1 else 0))
  }

  function DeferAll(s: State): State
    decreases |s.pending|
  {
    if s.pending == [] then s else DeferAll(Defer(s, 0))
  }

  function Halt(s: State): State {
    DeferAll(s).(stopped := true, timer := None, leases := map[], gapInFlight := 0)
  }

  ghost function Apply(s: State, step: Step): State
    requires Sane(s)
  {
    match step
    case Acquire(id, key, work, now) =>
      if Accepts(s, id, key, work) then Drain(Enqueue(s, id, key, work, now), now) else s
    case Cancel(id, now) => Drain(DropLease(DropWaiter(s, id), id), now)
    case Release(id, now) => Drain(DropLease(s, id), now)
    case Fire(now) => Drain(s, now)
    case Stop => Halt(s)
  }
}

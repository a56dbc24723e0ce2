/** The capacity a limited gap allocation leaves to main work, over every window in which main work waits. */
module RpcBudgetReserve {
  import opened Common
  import opened TokenBucket
  import opened RpcBudgetModel
  import opened RpcBudgetSafety
  import opened RpcBudgetOrder
  import opened RpcBudgetRate
  import opened RpcBudgetQuiescence

  // ---------------------------------------------------------------- one bucket

  /** What the burst cuts off a bucket between two readings. */
  ghost function Lost(b: Bucket, t: int, u: int): real { Level(Refill(b, t)) - Level(Refill(b, u)) }

  /** It is exactly what would have gone over the burst. */
  lemma LostExactly(b: Bucket, t: int, u: int)
    requires Valid(b) && b.limit.Limited? && b.last <= t <= u
    ensures var over := Refill(b, t).tokens + (u - t) as real / 1000.0 * b.limit.rate - b.limit.burst as real;
            Lost(b, t, u) == if over > 0.0 then over else 0.0
  {
    var c := Refill(b, t);
    RefillComposes(b, t, u);
    RefillValid(b, t);
    if t < u {
      var x, y := t as real / 1000.0, u as real / 1000.0;
      assert (u - t) as real / 1000.0 == y - x;
      LevelShift(c.tokens, c.limit.rate, x, y);
    }
  }

  lemma LevelShift(tokens: real, r: real, x: real, y: real)
    ensures (tokens + (y - x) * r) - r * y == tokens - r * x
  {
  }

  /** Taking costs the refilled bucket between one token less the slack and one token. */
  lemma TakeCosts(b: Bucket, u: int)
    requires Valid(b) && Ready(b, u) && b.limit.Limited?
    ensures Refill(TryAcquire(b, u), u) == TryAcquire(b, u)
    ensures Level(Refill(b, u)) - 1.0 <= Level(TryAcquire(b, u)) <= Level(Refill(b, u)) - (1.0 - SLACK)
  {
    RefillIdempotent(b, u);
  }

  // ---------------------------------------------------------------- one endpoint's account

  /** An endpoint with a limit of its own and a limited gap reservation. */
  ghost predicate Shared(s: State, k: Key) {
    k in s.endpoints && SharedEndpoint(s.endpoints[k])
  }

  ghost predicate SharedEndpoint(e: Endpoint) {
    && Valid(e.total) && e.total.limit.Limited?
    && e.gap.Some? && Valid(e.gap.value) && e.gap.value.limit.Limited?
  }

  /** From e to f at one clock reading: n grants, g of them to gap work. */
  ghost predicate Booked(e: Endpoint, f: Endpoint, n: int, g: int, u: int)
    requires SharedEndpoint(e)
  {
    && SharedEndpoint(f) && f.total.limit == e.total.limit && f.gap.value.limit == e.gap.value.limit
    && Level(Refill(f.total, u)) >= Level(Refill(e.total, u)) - n as real
    && g as real * (1.0 - SLACK) <= Level(Refill(e.gap.value, u)) - Level(Refill(f.gap.value, u)) <= g as real
  }

  ghost predicate Ledger(s: State, t: State, k: Key, u: int)
    requires Shared(s, k)
  {
    && k in t.endpoints
    && Booked(s.endpoints[k], t.endpoints[k], Grants(t.settled, k) - Grants(s.settled, k),
              GapGrants(t.settled, k) - GapGrants(s.settled, k), u)
  }

  lemma LedgerTrans(s: State, t: State, v: State, k: Key, u: int)
    requires Shared(s, k) && Ledger(s, t, k, u) && Shared(t, k) && Ledger(t, v, k, u)
    ensures Ledger(s, v, k, u)
  {
    hide Level, Refill, Grants, GapGrants, Valid;
  }

  lemma SameLedger(s: State, t: State, k: Key, u: int)
    requires Shared(s, k) && t.endpoints == s.endpoints
    requires Grants(t.settled, k) == Grants(s.settled, k) && GapGrants(t.settled, k) == GapGrants(s.settled, k)
    ensures Ledger(s, t, k, u)
  {
    hide Level, Refill, Grants, GapGrants, Valid;
  }

  lemma TouchLedger(s: State, totals: set<Key>, gaps: set<Key>, k: Key, u: int)
    requires Shared(s, k)
    ensures Ledger(s, s.(endpoints := TouchGaps(TouchTotals(s.endpoints, totals, u), gaps, u)), k, u)
  {
    var e := s.endpoints[k];
    RefillIdempotent(e.total, u);
    RefillIdempotent(e.gap.value, u);
    RefillValid(e.total, u);
    RefillValid(e.gap.value, u);
    hide Level, Refill, Grants, GapGrants, Valid;
  }

  lemma SpendBooked(e: Endpoint, work: Work, u: int)
    requires SharedEndpoint(e) && Ready(e.total, u) && (work.GapRepair? ==> Ready(e.gap.value, u))
    ensures Booked(e, Spend(e, work, u), 1, if work.GapRepair? then 1 else 0, u)
  {
    TakeCosts(e.total, u);
    RefillValid(e.total, u);
    RefillValid(e.gap.value, u);
    if work.GapRepair? { TakeCosts(e.gap.value, u); }
    hide Level, Refill, Valid;
  }

  lemma SameBooked(e: Endpoint, u: int)
    requires SharedEndpoint(e)
    ensures Booked(e, e, 0, 0, u)
  {
  }

  lemma GrantLedger(s: State, i: nat, k: Key, u: int)
    requires Shared(s, k) && i < |s.pending| && Grantable(s, s.pending[i], u)
    ensures Ledger(s, Grant(s, i, u), k, u)
  {
    var r := s.pending[i];
    GrantsSnoc(s.settled, Granted(r.ticket, r.key, r.work), k);
    if k == r.key { SpendBooked(s.endpoints[k], r.work, u); } else { SameBooked(s.endpoints[k], u); }
    hide Booked, SharedEndpoint, Grants, GapGrants, Spend, RemoveAt, Grantable;
  }

  lemma LedgerShares(s: State, t: State, k: Key, u: int)
    requires Shared(s, k) && Ledger(s, t, k, u)
    ensures Shared(t, k)
  {
  }

  lemma PassLedger(s: State, k: Key, u: int)
    requires Inv(s) && Sane(s) && Shared(s, k) && Pick(s, u) < |s.pending|
    ensures s.pending[Pick(s, u)].key in Scan(s, u).endpoints && Ledger(s, Grant(Scan(s, u), Pick(s, u), u), k, u)
  {
    hide Ledger, Shared, Inv;
    var i, c := Pick(s, u), Scan(s, u);
    TouchLedger(s, KeysOf(s.pending), ConsultedGaps(s, u), k, u);
    LedgerShares(s, c, k, u);
    PickReady(s, u);
    ScanGrantable(s, u, s.pending[i]);
    GrantLedger(c, i, k, u);
    LedgerTrans(s, c, Grant(c, i, u), k, u);
  }

  lemma {:induction false} GrantAllLedger(s: State, k: Key, u: int)
    requires Inv(s) && Sane(s) && !s.stopped && Shared(s, k)
    ensures Ledger(s, GrantAll(s, u), k, u)
    decreases |s.pending|
  {
    hide Ledger, Shared, Inv, Sane;
    if Pick(s, u) < |s.pending| {
      GrantStep(s, u);
      PassLedger(s, k, u);
      var g := Grant(Scan(s, u), Pick(s, u), u);
      LedgerShares(s, g, k, u);
      GrantAllLedger(g, k, u);
      LedgerTrans(s, g, GrantAll(s, u), k, u);
    } else {
      TouchLedger(s, KeysOf(s.pending), ConsultedGaps(s, u), k, u);
    }
  }

  lemma {:induction false} ExpireGrants(s: State, u: int, k: Key)
    ensures Grants(Expire(s, u).settled, k) == Grants(s.settled, k)
    ensures GapGrants(Expire(s, u).settled, k) == GapGrants(s.settled, k)
    decreases |s.pending|
  {
    hide Grants, GapGrants;
    var i := FirstExpired(s, u);
    if i < |s.pending| {
      GrantsSnoc(s.settled, Deferred(s.pending[i].ticket), k);
      ExpireGrants(Defer(s, i), u, k);
    }
  }

  lemma DrainLedger(s: State, k: Key, u: int)
    requires Inv(s) && !s.stopped && Shared(s, k)
    ensures Sane(s) && Ledger(s, Drain(s, u), k, u)
  {
    hide Ledger, Shared, Inv, Sane, GrantAll, Expire, Grants, GapGrants;
    InvSane(s);
    var b := Swept(s, u);
    SweptKeeps(s, u);
    SweptEndpoints(s, u);
    ExpireGrants(Reclaim(s, u), u, k);
    SameLedger(s, b, k, u);
    LedgerShares(s, b, k, u);
    GrantAllLedger(b, k, u);
    var g := GrantAll(b, u);
    LedgerTrans(s, b, g, k, u);
    LedgerShares(s, g, k, u);
    ArmLedger(g, k, u);
    LedgerTrans(s, g, Arm(g, u), k, u);
  }

  lemma ArmLedger(s: State, k: Key, u: int)
    requires Sane(s) && Shared(s, k)
    ensures Ledger(s, Arm(s, u), k, u)
  {
    NoTotals(s.endpoints, u);
    TouchLedger(s, {}, RearmGaps(s, s.pending), k, u);
    hide Level, Refill, Grants, GapGrants, Valid, Delays;
  }

  // ---------------------------------------------------------------- windows under pressure

  ghost predicate MainWaits(s: State, k: Key) { exists r :: r in s.pending && r.work.Main? && r.key == k }

  /** Main work waits for the endpoint although everything grantable at this reading has been granted. */
  ghost predicate Pressed(s: State, k: Key, t: int) {
    Inv(s) && !s.stopped && Shared(s, k) && NotBehind(s, t) && MainWaits(s, k) && NothingGrantable(s, t)
  }

  /** The step drains: it is neither a refused acquire nor a stop. */
  predicate Drains(s: State, step: Step) {
    match step
    case Acquire(id, key, work, _) => Accepts(s, id, key, work)
    case Stop => false
    case _ => true
  }

  /** The state a draining step hands to the drain. */
  function Before(s: State, step: Step): State {
    match step
    case Acquire(id, key, work, now) => Enqueue(s, id, key, work, now)
    case Cancel(id, _) => DropLease(DropWaiter(s, id), id)
    case Release(id, _) => DropLease(s, id)
    case _ => s
  }

  function TimeOf(step: Step, otherwise: int): int {
    match step
    case Acquire(_, _, _, now) => now
    case Cancel(_, now) => now
    case Release(_, now) => now
    case Fire(now) => now
    case Stop => otherwise
  }

  lemma CancelKeeps(s: State, id: Id)
    requires Inv(s)
    ensures Inv(DropWaiter(s, id)) && Inv(DropLease(DropWaiter(s, id), id))
  {
    hide Inv, DropLease;
    var i := First(s.pending, (r: Request) => r.id == id);
    if i < |s.pending| { SettleKeeps(s, i, Deferred(s.pending[i].ticket)); }
    DropLeaseKeeps(DropWaiter(s, id), id);
  }

  lemma BeforeRest(s: State, step: Step)
    ensures Before(s, step).endpoints == s.endpoints
    ensures Before(s, step).stopped == s.stopped && Before(s, step).gap == s.gap
  {
    hide RemoveAt, First;
  }

  lemma BeforeKeeps(s: State, step: Step)
    requires Inv(s) && Drains(s, step)
    ensures Inv(Before(s, step)) && Before(s, step).endpoints == s.endpoints
    ensures Before(s, step).stopped == s.stopped && Before(s, step).gap == s.gap
  {
    BeforeRest(s, step);
    hide Inv, Enqueue, DropLease, DropWaiter;
    match step
    case Acquire(id, key, work, now) => EnqueueKeeps(s, id, key, work, now);
    case Cancel(id, now) => CancelKeeps(s, id);
    case Release(id, now) => DropLeaseKeeps(s, id);
    case Fire(now) =>
  }

  lemma BeforeGrants(s: State, step: Step, k: Key)
    ensures Grants(Before(s, step).settled, k) == Grants(s.settled, k)
    ensures GapGrants(Before(s, step).settled, k) == GapGrants(s.settled, k)
  {
    hide Grants, GapGrants;
    if step.Cancel? {
      var i := First(s.pending, (r: Request) => r.id == step.id);
      if i < |s.pending| { GrantsSnoc(s.settled, Deferred(s.pending[i].ticket), k); }
    }
  }

  lemma BeforeDrain(s: State, step: Step)
    requires Inv(s) && Drains(s, step)
    ensures Sane(s) && Sane(Before(s, step)) && Apply(s, step) == Drain(Before(s, step), TimeOf(step, 0))
  {
    BeforeKeeps(s, step);
    InvSane(s);
    InvSane(Before(s, step));
    hide Inv, Sane, Drain;
  }

  /** Between (s, t) and (v, u): the total level falls by at most the grants and what was lost, the gap
      level by at least the gap grants less the slack. */
  ghost predicate Account(s: State, t: int, v: State, u: int, k: Key, lost: real)
    requires Shared(s, k)
  {
    && Shared(v, k)
    && v.endpoints[k].total.limit == s.endpoints[k].total.limit
    && v.endpoints[k].gap.value.limit == s.endpoints[k].gap.value.limit
    && Level(Refill(v.endpoints[k].total, u)) >=
         Level(Refill(s.endpoints[k].total, t)) - (Grants(v.settled, k) - Grants(s.settled, k)) as real - lost
    && (GapGrants(v.settled, k) - GapGrants(s.settled, k)) as real * (1.0 - SLACK) <=
         Level(Refill(s.endpoints[k].gap.value, t)) - Level(Refill(v.endpoints[k].gap.value, u))
  }

  /** The burst has room for one token and what arrives between two drains. */
  ghost predicate Room(s: State, k: Key, d: nat)
    requires Shared(s, k)
  {
    var l := s.endpoints[k].total.limit;
    1.0 + d as real / 1000.0 * l.rate <= l.burst as real
  }

  /** With room nothing is cut off while main work is pressed. */
  lemma PressedKeeps(s: State, k: Key, t: int, u: int, d: nat)
    requires Pressed(s, k, t) && Room(s, k, d) && t <= u <= t + d
    ensures Lost(s.endpoints[k].total, t, u) == 0.0
  {
    PressedUnready(s, k, t);
    var e := s.endpoints[k];
    hide Inv, NothingGrantable, MainWaits, Level, Refill, Lost;
    RoomLeft(Refill(e.total, t).tokens, e.total.limit.rate, u - t, d, e.total.limit.burst as real);
    LostExactly(e.total, t, u);
  }

  /** Waiting never raises the gap level. */
  lemma GapLevelFalls(s: State, k: Key, t: int, u: int)
    requires Shared(s, k) && NotBehind(s, t) && t <= u
    ensures Level(Refill(s.endpoints[k].gap.value, u)) <= Level(Refill(s.endpoints[k].gap.value, t))
  {
    var b := s.endpoints[k].gap.value;
    hide Level, Refill;
    RefillComposes(b, t, u);
    RefillValid(b, t);
    RefillLevel(Refill(b, t), u);
  }

  lemma RoomLeft(tokens: real, r: real, v: nat, d: nat, burst: real)
    requires tokens < 1.0 && r > 0.0 && v <= d && 1.0 + d as real / 1000.0 * r <= burst
    ensures tokens + v as real / 1000.0 * r <= burst
  {
    MulMonotone(v as real / 1000.0, d as real / 1000.0, r);
  }

  lemma PressedUnready(s: State, k: Key, t: int)
    requires Pressed(s, k, t)
    ensures Refill(s.endpoints[k].total, t).tokens < 1.0 - SLACK
  {
    hide Inv, Refill;
    var r :| r in s.pending && r.work.Main? && r.key == k;
    assert !Grantable(s, r, t);
  }

  lemma StepAccount(s: State, t: int, step: Step, k: Key)
    requires Pressed(s, k, t) && Drains(s, step) && t <= TimeOf(step, 0)
    requires Sane(s) && MainWaits(Apply(s, step), k)
    ensures var u := TimeOf(step, 0);
            Account(s, t, Apply(s, step), u, k, Lost(s.endpoints[k].total, t, u)) && Pressed(Apply(s, step), k, u)
  {
    hide Inv, Drain, Grants, GapGrants, Level, Refill, NothingGrantable, MainWaits, Valid;
    var u, b := TimeOf(step, 0), Before(s, step);
    BeforeKeeps(s, step);
    BeforeGrants(s, step, k);
    BeforeDrain(s, step);
    assert Shared(b, k);
    DrainLedger(b, k, u);
    GapLevelFalls(s, k, t, u);
    DrainArms(b, u);
    assert NotBehind(b, u);
    DrainConserves(b, u);
  }

  lemma AccountSelf(s: State, t: int, k: Key)
    requires Shared(s, k)
    ensures Account(s, t, s, t, k, 0.0)
  {
  }

  lemma AccountTrans(s: State, t: int, v: State, u: int, w: State, x: int, k: Key, a: real, b: real)
    requires Shared(s, k) && Account(s, t, v, u, k, a) && Account(v, u, w, x, k, b)
    ensures Account(s, t, w, x, k, a + b)
  {
    hide Level, Refill, Grants, GapGrants, Valid;
  }

  /** A window of drains at advancing readings, no two further than d apart if d is given, with main work
      waiting after each of them. */
  ghost predicate Pressing(s: State, t: int, steps: seq<Step>, k: Key, d: Option<nat>)
    requires Inv(s)
    decreases |steps|
  {
    steps == [] ||
    (ApplyKeeps(s, steps[0]);
     var v, u := Apply(s, steps[0]), TimeOf(steps[0], 0);
     if Drains(s, steps[0])
     then t <= u && (d.Some? ==> u <= t + d.value) && MainWaits(v, k) && Pressing(v, u, steps[1..], k, d)
     else !steps[0].Stop? && Pressing(v, t, steps[1..], k, d))
  }

  /** The reading of the last drain. */
  ghost function EndTime(s: State, t: int, steps: seq<Step>): int
    requires Inv(s)
    decreases |steps|
  {
    if steps == [] then t
    else
      ApplyKeeps(s, steps[0]);
      EndTime(Apply(s, steps[0]), if Drains(s, steps[0]) then TimeOf(steps[0], 0) else t, steps[1..])
  }

  /** What the burst cuts off the endpoint's total bucket in the window. */
  ghost function LostIn(s: State, t: int, steps: seq<Step>, k: Key): real
    requires Inv(s)
    decreases |steps|
  {
    if steps == [] || k !in s.endpoints then 0.0
    else
      ApplyKeeps(s, steps[0]);
      if Drains(s, steps[0])
      then Lost(s.endpoints[k].total, t, TimeOf(steps[0], 0))
           + LostIn(Apply(s, steps[0]), TimeOf(steps[0], 0), steps[1..], k)
      else LostIn(Apply(s, steps[0]), t, steps[1..], k)
  }

  lemma {:induction false} RunAccount(s: State, t: int, steps: seq<Step>, k: Key)
    requires Pressed(s, k, t) && Pressing(s, t, steps, k, None)
    ensures Account(s, t, Run(s, steps), EndTime(s, t, steps), k, LostIn(s, t, steps, k))
    ensures Pressed(Run(s, steps), k, EndTime(s, t, steps))
    decreases |steps|
  {
    hide Account, Inv, NotBehind, MainWaits, NothingGrantable, Apply, Drains, SharedEndpoint, Lost, Sane;
    if steps == [] {
      AccountSelf(s, t, k);
    } else {
      var step := steps[0];
      ApplyKeeps(s, step);
      var v := Apply(s, step);
      if Drains(s, step) {
        var u := TimeOf(step, 0);
        StepAccount(s, t, step, k);
        RunAccount(v, u, steps[1..], k);
        AccountTrans(s, t, v, u, Run(s, steps), EndTime(s, t, steps), k,
                     Lost(s.endpoints[k].total, t, u), LostIn(v, u, steps[1..], k));
      } else {
        RefusedChangesNothing(s, step);
        RunAccount(v, t, steps[1..], k);
      }
    }
  }

  /** With room for what arrives between two drains the burst cuts off nothing. */
  lemma {:induction false} NothingLost(s: State, t: int, steps: seq<Step>, k: Key, d: nat)
    requires Pressed(s, k, t) && Room(s, k, d) && Pressing(s, t, steps, k, Some(d))
    ensures LostIn(s, t, steps, k) == 0.0 && Pressing(s, t, steps, k, None)
    decreases |steps|
  {
    if steps == [] {
    } else {
      hide Inv, NotBehind, MainWaits, NothingGrantable, Apply, Drains, SharedEndpoint, Lost, Room;
      var step := steps[0];
      ApplyKeeps(s, step);
      var v := Apply(s, step);
      if Drains(s, step) {
        var u := TimeOf(step, 0);
        PressedKeeps(s, k, t, u, d);
        StepAccount(s, t, step, k);
        RoomKept(s, t, v, u, k, Lost(s.endpoints[k].total, t, u), d);
        NothingLost(v, u, steps[1..], k, d);
      } else {
        RefusedChangesNothing(s, step);
        NothingLost(v, t, steps[1..], k, d);
      }
    }
  }

  lemma RoomKept(s: State, t: int, v: State, u: int, k: Key, lost: real, d: nat)
    requires Shared(s, k) && Account(s, t, v, u, k, lost) && Room(s, k, d)
    ensures Shared(v, k) && Room(v, k, d)
  {
  }

  lemma RefusedChangesNothing(s: State, step: Step)
    requires Sane(s) && !Drains(s, step) && !step.Stop?
    ensures Apply(s, step) == s
  {
  }

  // ---------------------------------------------------------------- the reservation

  ghost function MainGrants(settled: seq<Outcome>, k: Key): int { Grants(settled, k) - GapGrants(settled, k) }

  function Seconds(t: int): real { t as real / 1000.0 }

  function Product(a: real, b: real): real { a * b }

  /** The difference of the two rates over a window. */
  function Difference(l: Limit, g: Limit, t: int, u: int): real
    requires l.Limited? && g.Limited?
  {
    Product(l.rate * (1.0 - SLACK) - g.rate, Seconds(u) - Seconds(t))
  }

  lemma ReserveAlgebra(n: real, g: real, rate: real, gapRate: real, x: real, y: real,
                       a: real, b: real, a': real, b': real, lost: real)
    requires 0.0 <= a && a' < 1.0 && b <= 1.0 && 0.0 <= b'
    requires a' - Product(rate, y) >= (a - Product(rate, x)) - n - lost
    requires g * (1.0 - SLACK) <= (b - Product(gapRate, x)) - (b' - Product(gapRate, y))
    ensures (n - g) * (1.0 - SLACK) >= Product(rate * (1.0 - SLACK) - gapRate, y - x) - 2.0 - lost * (1.0 - SLACK)
  {
    var z, w := rate * (y - x), gapRate * (y - x);
    assert n >= z - 1.0 - lost;
    assert g * (1.0 - SLACK) <= 1.0 + w;
    assert (rate * (1.0 - SLACK) - gapRate) * (y - x) == z * (1.0 - SLACK) - w;
  }

  /** What the smaller gap allowance keeps for main work: while main work waits for an endpoint it is granted
      there at least the difference of the two rates, less two requests and less what the burst cut off,
      whatever else is asked for in the meantime. */
  lemma MainReserved(s: State, t: int, steps: seq<Step>, k: Key)
    requires Pressed(s, k, t) && Pressing(s, t, steps, k, None)
    ensures s.endpoints[k].gap.value.limit.rate < s.endpoints[k].total.limit.rate
    ensures (MainGrants(Run(s, steps).settled, k) - MainGrants(s.settled, k)) as real * (1.0 - SLACK) >=
            Difference(s.endpoints[k].total.limit, s.endpoints[k].gap.value.limit, t, EndTime(s, t, steps))
            - 2.0 - LostIn(s, t, steps, k) * (1.0 - SLACK)
  {
    GapBurst(s, k);
    hide MainGrants, Difference, Account;
    RunAccount(s, t, steps, k);
    hide Pressing, Pressed, Run, EndTime, LostIn;
    Closing(s, t, Run(s, steps), EndTime(s, t, steps), k, LostIn(s, t, steps, k));
  }

  lemma Closing(s: State, t: int, v: State, u: int, k: Key, lost: real)
    requires Pressed(s, k, t) && Pressed(v, k, u) && Account(s, t, v, u, k, lost)
    ensures (MainGrants(v.settled, k) - MainGrants(s.settled, k)) as real * (1.0 - SLACK) >=
            Difference(s.endpoints[k].total.limit, s.endpoints[k].gap.value.limit, t, u) - 2.0 - lost * (1.0 - SLACK)
  {
    PressedUnready(v, k, u);
    GapBurst(s, k);
    ClosingParts(s.endpoints[k], t, v.endpoints[k], u, Grants(v.settled, k) - Grants(s.settled, k),
                 GapGrants(v.settled, k) - GapGrants(s.settled, k), lost);
    hide Difference, Level, Refill, Grants, GapGrants, Inv, NothingGrantable, MainWaits;
  }

  lemma ClosingParts(e: Endpoint, t: int, f: Endpoint, u: int, n: int, g: int, lost: real)
    requires SharedEndpoint(e) && SharedEndpoint(f)
    requires f.total.limit == e.total.limit && f.gap.value.limit == e.gap.value.limit
    requires e.total.last <= t && e.gap.value.last <= t && f.total.last <= u && f.gap.value.last <= u
    requires e.gap.value.limit.burst == 1 && Refill(f.total, u).tokens < 1.0 - SLACK
    requires Level(Refill(f.total, u)) >= Level(Refill(e.total, t)) - n as real - lost
    requires g as real * (1.0 - SLACK) <= Level(Refill(e.gap.value, t)) - Level(Refill(f.gap.value, u))
    ensures (n - g) as real * (1.0 - SLACK) >=
            Difference(e.total.limit, e.gap.value.limit, t, u) - 2.0 - lost * (1.0 - SLACK)
  {
    At(e.total, t);
    At(e.gap.value, t);
    At(f.total, u);
    At(f.gap.value, u);
    hide Refill, Level, Seconds, Product;
    ReserveAlgebra(n as real, g as real, e.total.limit.rate, e.gap.value.limit.rate, Seconds(t), Seconds(u),
                   Refill(e.total, t).tokens, Refill(e.gap.value, t).tokens,
                   Refill(f.total, u).tokens, Refill(f.gap.value, u).tokens, lost);
  }

  lemma GapBurst(s: State, k: Key)
    requires Inv(s) && Shared(s, k)
    ensures s.endpoints[k].gap.value.limit.burst == 1
    ensures s.endpoints[k].gap.value.limit.rate < s.endpoints[k].total.limit.rate
  {
  }

  /** A bucket read at a reading it is not ahead of. */
  lemma At(b: Bucket, t: int)
    requires Valid(b) && b.limit.Limited? && b.last <= t
    ensures 0.0 <= Refill(b, t).tokens <= b.limit.burst as real
    ensures Level(Refill(b, t)) == Refill(b, t).tokens - Product(b.limit.rate, Seconds(t))
  {
    RefillValid(b, t);
    assert Refill(b, t).last == t && Refill(b, t).limit == b.limit;
    hide Refill;
  }
}

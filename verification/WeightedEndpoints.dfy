/** The endpoint pool of shared/config/weighted-endpoints.ts: smooth weighted round-robin whose weights shrink
    with recorded failures. Weights are scaled by 6400, which makes max(0.01, w / 2^f) for f <= 8 an exact
    positive integer. */
module WeightedEndpoints {
  import opened Common
  import opened SmoothRoundRobin

  const SCALE := 6400
  const MAX_PENALTY := 8
  const MIN_EFFECTIVE := 64  // 0.01 scaled

  datatype Endpoint = Endpoint(id: string, weight: int, failures: nat, credit: int)

  predicate Configured(e: Endpoint) { e.weight >= 1 && e.failures <= MAX_PENALTY }

  predicate AllConfigured(es: seq<Endpoint>) { forall i :: 0 <= i < |es| ==> Configured(es[i]) }

  /** The scaled value of 1 / 2^f; the division leaves no remainder for f <= 8. */
  function Share(f: nat): int { SCALE / Pow2(f) }

  function Effective(e: Endpoint): int {
    Max(MIN_EFFECTIVE, e.weight * Share(e.failures))
  }

  lemma ShareExact(f: nat)
    requires f <= MAX_PENALTY
    ensures Share(f) * Pow2(f) == SCALE && 1 <= Share(f) <= SCALE && Share(0) == SCALE
  {
    assert Pow2(1) == 2 && Pow2(2) == 4 && Pow2(3) == 8 && Pow2(4) == 16;
    assert Pow2(5) == 32 && Pow2(6) == 64 && Pow2(7) == 128 && Pow2(8) == 256;
  }

  /** The scaled weight is exact: either the floor or precisely weight / 2^failures, never a rounded value,
      and it lies between the floor and the configured weight. */
  lemma EffectiveExact(e: Endpoint)
    requires Configured(e)
    ensures Effective(e) == MIN_EFFECTIVE || Effective(e) * Pow2(e.failures) == SCALE * e.weight
    ensures MIN_EFFECTIVE <= Effective(e) <= SCALE * e.weight
    ensures e.failures == 0 ==> Effective(e) == SCALE * e.weight
  {
    ShareExact(e.failures);
    ShareProduct(e.weight, Share(e.failures), Pow2(e.failures));
  }

  lemma ShareProduct(w: int, q: int, p: int)
    requires w >= 1 && q * p == SCALE && q <= SCALE
    ensures w * q * p == SCALE * w && w * q <= SCALE * w
  {
    assert w * q * p == w * (q * p);
    assert w * (SCALE - q) >= 0;
  }

  // ---------------------------------------------------------------- the pool as credits and weights

  function Credits(es: seq<Endpoint>): (r: seq<int>)
    ensures |r| == |es| && forall i :: 0 <= i < |es| ==> r[i] == es[i].credit
  {
    seq(|es|, i requires 0 <= i < |es| => es[i].credit)
  }

  function Weights(es: seq<Endpoint>): (r: seq<int>)
    ensures |r| == |es| && forall i :: 0 <= i < |es| ==> r[i] == es[i].weight
  {
    seq(|es|, i requires 0 <= i < |es| => es[i].weight)
  }

  function Effectives(es: seq<Endpoint>): (r: seq<int>)
    ensures |r| == |es| && forall i :: 0 <= i < |es| ==> r[i] == Effective(es[i])
  {
    seq(|es|, i requires 0 <= i < |es| => Effective(es[i]))
  }

  function WithCredits(es: seq<Endpoint>, cs: seq<int>): (r: seq<Endpoint>)
    requires |cs| == |es|
    ensures |r| == |es| && forall i :: 0 <= i < |es| ==> r[i] == es[i].(credit := cs[i])
  {
    seq(|es|, i requires 0 <= i < |es| => es[i].(credit := cs[i]))
  }

  function Selected(es: seq<Endpoint>): (i: nat)
    requires es != []
    ensures i < |es|
  {
    Pick(Credits(es), Effectives(es))
  }

  function Select(es: seq<Endpoint>): (r: seq<Endpoint>)
    requires es != []
    ensures |r| == |es|
  {
    WithCredits(es, Next(Credits(es), Effectives(es)))
  }

  function FindId(es: seq<Endpoint>, id: string): (i: nat)
    ensures i <= |es|
    ensures i < |es| <==> exists j :: 0 <= j < |es| && es[j].id == id
    ensures i < |es| ==> es[i].id == id && forall j :: 0 <= j < i ==> es[j].id != id
  {
    First(es, (e: Endpoint) => e.id == id)
  }

  function RecordSuccess(es: seq<Endpoint>, id: string): (r: seq<Endpoint>)
    ensures |r| == |es|
  {
    var i := FindId(es, id);
    if i < |es| then es[i := es[i].(failures := Max(0, es[i].failures - 1))] else es
  }

  function RecordFailure(es: seq<Endpoint>, id: string): (r: seq<Endpoint>)
    ensures |r| == |es|
  {
    var i := FindId(es, id);
    if i < |es| then es[i := es[i].(failures := Min(MAX_PENALTY, es[i].failures + 1))] else es
  }

  // ---------------------------------------------------------------- invariant under every interleaving

  ghost function Cap(es: seq<Endpoint>): int { SCALE * Sum(Weights(es)) }

  ghost predicate Sound(es: seq<Endpoint>) {
    es != [] && AllConfigured(es) && Balanced(Credits(es), Cap(es))
  }

  ghost predicate SameWeights(es: seq<Endpoint>, fs: seq<Endpoint>) {
    |es| == |fs| && Weights(es) == Weights(fs)
  }

  lemma {:induction false} EffectiveSum(es: seq<Endpoint>)
    requires AllConfigured(es)
    ensures Positive(Effectives(es)) && Sum(Effectives(es)) <= SCALE * Sum(Weights(es))
  {
    forall i | 0 <= i < |es| ensures Effectives(es)[i] > 0 { EffectiveExact(es[i]); }
    if es != [] {
      var n := |es| - 1;
      EffectiveSum(es[..n]);
      EffectiveExact(es[n]);
      assert Effectives(es)[..n] == Effectives(es[..n]) && Weights(es)[..n] == Weights(es[..n]);
    }
  }

  lemma SelectSound(es: seq<Endpoint>)
    requires Sound(es)
    ensures Sound(Select(es)) && SameWeights(es, Select(es))
  {
    EffectiveSum(es);
    NextBalanced(Credits(es), Effectives(es), Cap(es));
    assert Credits(Select(es)) == Next(Credits(es), Effectives(es));
    assert Weights(Select(es)) == Weights(es);
  }

  lemma RecordSound(es: seq<Endpoint>, id: string)
    requires Sound(es)
    ensures Sound(RecordSuccess(es, id)) && SameWeights(es, RecordSuccess(es, id))
    ensures Sound(RecordFailure(es, id)) && SameWeights(es, RecordFailure(es, id))
  {
    hide Sum;
    assert Credits(RecordSuccess(es, id)) == Credits(es) && Weights(RecordSuccess(es, id)) == Weights(es);
    assert Credits(RecordFailure(es, id)) == Credits(es) && Weights(RecordFailure(es, id)) == Weights(es);
  }

  /** Credit stays above minus the scaled pool weight and at most (k - 1) times it. */
  lemma CreditBounds(es: seq<Endpoint>, i: nat)
    requires Sound(es) && i < |es|
    ensures -Cap(es) < es[i].credit <= (|es| - 1) * Cap(es)
    ensures Sum(Credits(es)) == 0
  {
    CreditCeiling(Credits(es), Cap(es), i);
  }

  datatype Step = Choose | Success(id: string) | Failure(id: string)

  ghost function Apply(es: seq<Endpoint>, step: Step): (r: seq<Endpoint>)
    requires Sound(es)
    ensures Sound(r) && SameWeights(es, r)
  {
    match step
    case Choose => SelectSound(es); Select(es)
    case Success(id) => RecordSound(es, id); RecordSuccess(es, id)
    case Failure(id) => RecordSound(es, id); RecordFailure(es, id)
  }

  ghost function Run(es: seq<Endpoint>, steps: seq<Step>): (r: seq<Endpoint>)
    requires Sound(es)
    ensures Sound(r) && SameWeights(es, r)
    decreases |steps|
  {
    if steps == [] then es else Run(Apply(es, steps[0]), steps[1..])
  }

  /** Indices chosen along a run, in order. */
  ghost function Picks(es: seq<Endpoint>, steps: seq<Step>): seq<nat>
    requires Sound(es)
    decreases |steps|
  {
    if steps == [] then []
    else (if steps[0].Choose? then [Selected(es)] else []) + Picks(Apply(es, steps[0]), steps[1..])
  }

  lemma UnpickedStep(es: seq<Endpoint>, step: Step, i: nat)
    requires Sound(es) && i < |es| && (step.Choose? ==> Selected(es) != i)
    ensures Apply(es, step)[i].credit >= es[i].credit + (if step.Choose? then MIN_EFFECTIVE else 0)
  {
    hide Effective, Sum, Pick, ArgMax, Balanced;
    EffectiveExact(es[i]);
  }

  lemma {:induction false} UnpickedGains(es: seq<Endpoint>, steps: seq<Step>, i: nat)
    requires Sound(es) && i < |es| && i !in Picks(es, steps)
    ensures Run(es, steps)[i].credit >= es[i].credit + MIN_EFFECTIVE * |Picks(es, steps)|
    decreases |steps|
  {
    if steps != [] {
      if steps[0].Choose? { assert Picks(es, steps)[0] == Selected(es); }
      UnpickedStep(es, steps[0], i);
      UnpickedGains(Apply(es, steps[0]), steps[1..], i);
    }
  }

  lemma StarvationBound(k: int, w: int, n: int)
    requires MIN_EFFECTIVE * n - SCALE * w < (k - 1) * (SCALE * w)
    ensures n < 100 * k * w
  {
    assert (k - 1) * (SCALE * w) == SCALE * (k * w) - SCALE * w;
    assert 100 * k * w == 100 * (k * w);
  }

  /** No starvation: however successes and failures interleave, every endpoint is chosen at least once in
      any 100 * k * W consecutive selections of k endpoints with configured weights summing to W. */
  lemma NoStarvation(es: seq<Endpoint>, steps: seq<Step>, i: nat)
    requires Sound(es) && i < |es|
    requires |Picks(es, steps)| >= 100 * |es| * Sum(Weights(es))
    ensures i in Picks(es, steps)
  {
    if i !in Picks(es, steps) {
      UnpickedGains(es, steps, i);
      CreditBounds(es, i);
      CreditBounds(Run(es, steps), i);
      StarvationBound(|es|, Sum(Weights(es)), |Picks(es, steps)|);
    }
  }

  // ---------------------------------------------------------------- exact proportions without failures

  /** A selector as the constructor leaves it. */
  ghost predicate Fresh(es: seq<Endpoint>) {
    es != [] && AllConfigured(es) && forall i :: 0 <= i < |es| ==> es[i].failures == 0 && es[i].credit == 0
  }

  lemma FreshSound(es: seq<Endpoint>)
    requires Fresh(es)
    ensures Sound(es) && Pool(Weights(es))
  {
    SumZeros(|es|);
    assert Credits(es) == Zeros(|es|);
    PoolSum(Weights(es));
  }

  /** The pool after t selections and nothing else. */
  ghost function Selections(es: seq<Endpoint>, t: nat): (r: seq<Endpoint>)
    requires es != []
    ensures |r| == |es|
  {
    if t == 0 then es else Select(Selections(es, t - 1))
  }

  /** How often endpoint i is chosen in the first t selections. */
  ghost function Chosen(es: seq<Endpoint>, t: nat, i: nat): nat
    requires es != []
  {
    if t == 0 then 0 else Chosen(es, t - 1, i) + (if Selected(Selections(es, t - 1)) == i then 1 else 0)
  }

  function Scaled(xs: seq<int>): (r: seq<int>)
    ensures |r| == |xs| && forall i :: 0 <= i < |xs| ==> r[i] == SCALE * xs[i]
  {
    seq(|xs|, i requires 0 <= i < |xs| => SCALE * xs[i])
  }

  lemma {:induction false} SumScaled(xs: seq<int>)
    ensures Sum(Scaled(xs)) == SCALE * Sum(xs)
  {
    if xs != [] {
      var n := |xs| - 1;
      SumScaled(xs[..n]);
      assert Scaled(xs)[..n] == Scaled(xs[..n]);
    }
  }

  /** Scaling credits and weights together changes no choice. */
  lemma NextScaled(cs: seq<int>, ws: seq<int>)
    requires |cs| == |ws| > 0
    ensures Pick(Scaled(cs), Scaled(ws)) == Pick(cs, ws)
    ensures Next(Scaled(cs), Scaled(ws)) == Scaled(Next(cs, ws))
  {
    var s, z := Plus(cs, ws), Plus(Scaled(cs), Scaled(ws));
    assert forall i :: 0 <= i < |s| ==> z[i] == SCALE * s[i];
    SumScaled(ws);
  }

  lemma CleanEffectives(es: seq<Endpoint>)
    requires AllConfigured(es) && forall i :: 0 <= i < |es| ==> es[i].failures == 0
    ensures Effectives(es) == Scaled(Weights(es))
  {
    forall i | 0 <= i < |es| ensures Effectives(es)[i] == SCALE * es[i].weight { EffectiveExact(es[i]); }
  }

  lemma PlainStep(es: seq<Endpoint>, cs: seq<int>)
    requires Fresh(es) && |cs| == |es|
    ensures
      var r := WithCredits(es, Scaled(cs));
      && Selected(r) == Pick(cs, Weights(es))
      && Select(r) == WithCredits(es, Scaled(Next(cs, Weights(es))))
  {
    var r, ws := WithCredits(es, Scaled(cs)), Weights(es);
    CleanEffectives(r);
    assert Credits(r) == Scaled(cs) && Weights(r) == ws;
    NextScaled(cs, ws);
  }

  /** Without failures the pool is the plain integer round-robin on the configured weights, scaled. */
  lemma {:induction false} SelectionsPlain(es: seq<Endpoint>, t: nat, i: nat)
    requires Fresh(es) && i < |es|
    ensures Pool(Weights(es))
    ensures Selections(es, t) == WithCredits(es, Scaled(After(Weights(es), t)))
    ensures Chosen(es, t, i) == Count(Weights(es), t, i)
  {
    hide Select, Selected, Next, Pick;
    if t == 0 {
      assert WithCredits(es, Scaled(Zeros(|es|))) == es;
    } else {
      SelectionsPlain(es, t - 1, i);
      PlainStep(es, After(Weights(es), t - 1));
    }
  }

  /** In every prefix no endpoint is ahead of its proportional share by a whole selection. */
  lemma PrefixProportion(es: seq<Endpoint>, t: nat, i: nat)
    requires Fresh(es) && i < |es|
    ensures Chosen(es, t, i) * Sum(Weights(es)) < t * es[i].weight + Sum(Weights(es))
  {
    SelectionsPlain(es, t, i);
    PrefixFairness(Weights(es), t, i);
  }

  /** W selections choose each endpoint exactly its weight and return every credit to zero. */
  lemma BlockProportion(es: seq<Endpoint>, i: nat)
    requires Fresh(es) && i < |es|
    ensures Sum(Weights(es)) >= 1
    ensures Chosen(es, Sum(Weights(es)), i) == es[i].weight
    ensures Selections(es, Sum(Weights(es))) == es
  {
    hide Select, Selected, Sum, Selections, Chosen, After, Count;
    FreshSound(es);
    BlockFairness(Weights(es));
    SelectionsPlain(es, Sum(Weights(es)), i);
    assert WithCredits(es, Scaled(Zeros(|es|))) == es;
  }

  lemma {:induction false} SelectionsAdd(es: seq<Endpoint>, a: nat, b: nat)
    requires es != []
    ensures Selections(es, a + b) == Selections(Selections(es, a), b)
  {
    hide Select;
    if b > 0 { SelectionsAdd(es, a, b - 1); }
  }

  /** So does every later block: after any number of blocks the pool is back where it started. */
  lemma {:induction false} EveryBlockProportion(es: seq<Endpoint>, m: nat, i: nat)
    requires Fresh(es) && i < |es|
    ensures Sum(Weights(es)) >= 1
    ensures Selections(es, Times(m, Sum(Weights(es)))) == es
    ensures Chosen(Selections(es, Times(m, Sum(Weights(es)))), Sum(Weights(es)), i) == es[i].weight
  {
    hide Select, Selected, Sum, Chosen;
    BlockProportion(es, i);
    var w := Sum(Weights(es));
    if m > 0 {
      EveryBlockProportion(es, m - 1, i);
      SelectionsAdd(es, Times(m - 1, w), w);
    }
  }

  // ---------------------------------------------------------------- penalties

  /** The scaled weight is the larger of the floor and the configured weight halved once per failure. */
  lemma EffectiveIsHalved(e: Endpoint)
    requires Configured(e)
    ensures Effective(e) * Pow2(e.failures) == Max(MIN_EFFECTIVE * Pow2(e.failures), SCALE * e.weight)
  {
    hide Pow2, Share;
    ShareExact(e.failures);
    ShareProduct(e.weight, Share(e.failures), Pow2(e.failures));
    ScaleMax(MIN_EFFECTIVE, e.weight * Share(e.failures), Pow2(e.failures));
  }

  lemma ScaleMax(a: int, b: int, p: int)
    requires p >= 1
    ensures Max(a, b) * p == Max(a * p, b * p)
  {
    if a > b { assert (a - b) * p > 0; } else { assert (b - a) * p >= 0; }
  }

  /** Recording touches one endpoint's failure count only; a success undoes a failure exactly unless the
      penalty was already at its maximum, and a failure undoes a success exactly unless there was none. */
  lemma RecordInverse(es: seq<Endpoint>, id: string)
    requires AllConfigured(es)
    ensures
      var i := FindId(es, id);
      if i == |es| then RecordSuccess(es, id) == RecordFailure(es, id) == es
      else
        && (RecordSuccess(RecordFailure(es, id), id) == es <==> es[i].failures < MAX_PENALTY)
        && (RecordFailure(RecordSuccess(es, id), id) == es <==> es[i].failures > 0)
        && RecordFailure(es, id)[i].failures == Min(MAX_PENALTY, es[i].failures + 1)
        && forall j :: 0 <= j < |es| && j != i ==> RecordFailure(es, id)[j] == RecordSuccess(es, id)[j] == es[j]
  {
    hide FindId;
    var i := FindId(es, id);
    if i < |es| {
      SameIds(es, RecordFailure(es, id), id);
      SameIds(es, RecordSuccess(es, id), id);
      var f, g := RecordSuccess(RecordFailure(es, id), id), RecordFailure(RecordSuccess(es, id), id);
      assert Configured(es[i]);
      assert f[i] == es[i] ==> f == es;
      assert g[i] == es[i] ==> g == es;
    }
  }

  lemma SameIds(es: seq<Endpoint>, fs: seq<Endpoint>, id: string)
    requires |es| == |fs| && forall j :: 0 <= j < |es| ==> es[j].id == fs[j].id
    ensures FindId(es, id) == FindId(fs, id)
  {
    var i, j := FindId(es, id), FindId(fs, id);
    assert i < |es| ==> es[i].id == id && fs[i].id == id;
    assert j < |fs| ==> fs[j].id == id && es[j].id == id;
  }

  /** A success never raises a failure count and leaves an endpoint without failures untouched; a failure never
      lowers one. Neither moves a credit or a weight. */
  lemma RecordDirection(es: seq<Endpoint>, id: string, j: nat)
    requires AllConfigured(es) && j < |es|
    ensures RecordSuccess(es, id)[j].failures <= es[j].failures <= RecordFailure(es, id)[j].failures
    ensures es[j].failures == 0 ==> RecordSuccess(es, id)[j] == es[j]
    ensures RecordSuccess(es, id)[j].(failures := 0) == es[j].(failures := 0)
    ensures RecordFailure(es, id)[j].(failures := 0) == es[j].(failures := 0)
  {
    hide FindId;
    assert Configured(es[j]);
  }

  function Recovered(es: seq<Endpoint>, id: string, n: nat): (r: seq<Endpoint>)
    ensures |r| == |es|
  {
    if n == 0 then es else RecordSuccess(Recovered(es, id, n - 1), id)
  }

  function Penalized(es: seq<Endpoint>, id: string, n: nat): (r: seq<Endpoint>)
    ensures |r| == |es|
  {
    if n == 0 then es else RecordFailure(Penalized(es, id, n - 1), id)
  }

  lemma {:induction false} RecoveredFailures(es: seq<Endpoint>, id: string, n: nat, j: nat)
    requires j < |es|
    ensures FindId(Recovered(es, id, n), id) == FindId(es, id)
    ensures Recovered(es, id, n)[j] ==
            if j == FindId(es, id) then es[j].(failures := Max(0, es[j].failures - n)) else es[j]
  {
    hide FindId;
    if n > 0 {
      RecoveredFailures(es, id, n - 1, j);
      var r := Recovered(es, id, n - 1);
      SameIds(r, RecordSuccess(r, id), id);
    }
  }

  lemma {:induction false} PenalizedFailures(es: seq<Endpoint>, id: string, n: nat, j: nat)
    requires AllConfigured(es) && j < |es|
    ensures FindId(Penalized(es, id, n), id) == FindId(es, id)
    ensures Penalized(es, id, n)[j] ==
            if j == FindId(es, id) then es[j].(failures := Min(MAX_PENALTY, es[j].failures + n)) else es[j]
  {
    hide FindId;
    assert Configured(es[j]);
    if n > 0 {
      PenalizedFailures(es, id, n - 1, j);
      var r := Penalized(es, id, n - 1);
      SameIds(r, RecordFailure(r, id), id);
    }
  }

  /** As many successes as an endpoint has failures restore its full configured weight, and more keep it. */
  lemma SuccessesRestore(es: seq<Endpoint>, id: string, n: nat)
    requires AllConfigured(es) && FindId(es, id) < |es| && n >= es[FindId(es, id)].failures
    ensures var e := Recovered(es, id, n)[FindId(es, id)];
            e.failures == 0 && Effective(e) == SCALE * e.weight && e.weight == es[FindId(es, id)].weight
  {
    hide FindId, Effective;
    var i := FindId(es, id);
    RecoveredFailures(es, id, n, i);
    assert Configured(es[i]);
    EffectiveExact(Recovered(es, id, n)[i]);
  }

  /** n failures and then n successes restore the endpoint exactly when the penalty did not run into its
      maximum, or the endpoint had no failures to begin with. */
  lemma OutageUndone(es: seq<Endpoint>, id: string, n: nat)
    requires AllConfigured(es) && FindId(es, id) < |es|
    ensures Recovered(Penalized(es, id, n), id, n) == es <==>
            es[FindId(es, id)].failures + n <= MAX_PENALTY || es[FindId(es, id)].failures == 0
  {
    hide FindId;
    var i, p := FindId(es, id), Penalized(es, id, n);
    assert Configured(es[i]);
    PenalizedFailures(es, id, n, i);
    RecoveredFailures(p, id, n, i);
    forall j | 0 <= j < |es| && j != i ensures Recovered(p, id, n)[j] == es[j] {
      PenalizedFailures(es, id, n, j);
      RecoveredFailures(p, id, n, j);
    }
    if Recovered(p, id, n)[i] == es[i] { assert Recovered(p, id, n) == es; }
  }
}

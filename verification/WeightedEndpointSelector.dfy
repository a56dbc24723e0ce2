/** The selector object of shared/config/weighted-endpoints.ts, updated in place. */
module WeightedEndpointSelector {
  import opened Common
  import opened SmoothRoundRobin
  import W = WeightedEndpoints

  /** Construction fails exactly on an empty list or a weight that is not a positive integer. */
  method Create(ids: seq<string>, weights: seq<int>) returns (r: Result<Selector>)
    requires |ids| == |weights|
    ensures r.Ok? <==> |weights| > 0 && forall i :: 0 <= i < |weights| ==> weights[i] >= 1
    ensures r.Ok? ==> fresh(r.value) && r.value.Valid() && W.Fresh(r.value.states)
  {
    if |weights| == 0 || exists i :: 0 <= i < |weights| && weights[i] < 1 { return Thrown; }
    var s := new Selector(ids, weights);
    return Ok(s);
  }

  class Selector {
    var states: seq<W.Endpoint>

    ghost predicate Valid()
      reads this
    {
      W.Sound(states)
    }

    /** The ids and weights are already normalised: at least one, and each weight a positive integer. */
    constructor (ids: seq<string>, weights: seq<int>)
      requires |ids| == |weights| > 0 && forall i :: 0 <= i < |weights| ==> weights[i] >= 1
      ensures Valid() && W.Fresh(states) && |states| == |ids|
      ensures forall i :: 0 <= i < |ids| ==> states[i] == W.Endpoint(ids[i], weights[i], 0, 0)
    {
      states := seq(|ids|, i requires 0 <= i < |ids| => W.Endpoint(ids[i], weights[i], 0, 0));
      new;
      W.FreshSound(states);
    }

    /** The loop of one selection: credit every endpoint, total the weights, keep the first richest. */
    method CreditAll() returns (i: nat, totalWeight: int)
      requires states != []
      modifies this
      ensures i == W.Selected(old(states)) && totalWeight == Sum(W.Effectives(old(states)))
      ensures states == W.WithCredits(old(states), Plus(W.Credits(old(states)), W.Effectives(old(states))))
    {
      hide W.Effective, Sum, ArgMax;
      ghost var before, ws := states, W.Effectives(states);
      ghost var sums := Plus(W.Credits(before), ws);
      i, totalWeight := 0, 0;
      SumNone(ws);
      for n := 0 to |states|
        invariant |states| == |before| && i < |states| && i <= n && (n > 0 ==> i < n)
        invariant forall j :: 0 <= j < |states| ==>
                    states[j] == if j < n then before[j].(credit := sums[j]) else before[j]
        invariant totalWeight == Sum(ws[..n])
        invariant n > 0 ==> i == ArgMax(sums[..n])
      {
        SumSnoc(ws, n);
        ArgMaxSnoc(sums, n);
        var weight := W.Effective(states[n]);
        states := states[n := states[n].(credit := states[n].credit + weight)];
        totalWeight := totalWeight + weight;
        if states[n].credit > states[i].credit { i := n; }
      }
      assert ws[..|ws|] == ws && sums[..|sums|] == sums;
    }

    method Select() returns (i: nat)
      requires Valid()
      modifies this
      ensures Valid() && i == W.Selected(old(states)) && states == W.Select(old(states))
    {
      hide W.Sound, W.Effective, Sum, ArgMax;
      ghost var before := states;
      W.SelectSound(before);
      var totalWeight;
      i, totalWeight := CreditAll();
      states := states[i := states[i].(credit := states[i].credit - totalWeight)];
      assert states == W.Select(before);
    }

    method RecordSuccess(id: string) returns (known: bool)
      requires Valid()
      modifies this
      ensures Valid() && states == W.RecordSuccess(old(states), id)
      ensures known <==> exists i :: 0 <= i < |old(states)| && old(states)[i].id == id
    {
      W.RecordSound(states, id);
      var i := W.FindId(states, id);
      known := i < |states|;
      if known { states := states[i := states[i].(failures := Max(0, states[i].failures - 1))]; }
    }

    method RecordFailure(id: string) returns (known: bool)
      requires Valid()
      modifies this
      ensures Valid() && states == W.RecordFailure(old(states), id)
      ensures known <==> exists i :: 0 <= i < |old(states)| && old(states)[i].id == id
    {
      W.RecordSound(states, id);
      var i := W.FindId(states, id);
      known := i < |states|;
      if known { states := states[i := states[i].(failures := Min(W.MAX_PENALTY, states[i].failures + 1))]; }
    }
  }
}

/** The two loops of fill processing: the count map that matches NFT legs and the running unit offset. */
module FillExecution {
  import opened Common
  import opened Fills
  import opened FillPayments
  import opened FillLegs

  function CountOf(m: map<string, nat>, k: string): nat { if k in m then m[k] else 0 }

  ghost predicate Counts(m: map<string, nat>, bag: multiset<string>) {
    forall k :: CountOf(m, k) == bag[k]
  }

  lemma CountsChange(m: map<string, nat>, bag: multiset<string>, k: string)
    requires Counts(m, bag)
    ensures Counts(m[k := CountOf(m, k) + 1], bag + multiset{k})
    ensures k in bag ==> CountOf(m, k) > 0 && Counts(m[k := CountOf(m, k) - 1], bag - multiset{k})
    ensures k in bag <==> CountOf(m, k) != 0
  {
    assert CountOf(m, k) == bag[k];
    forall x ensures CountOf(m[k := CountOf(m, k) + 1], x) == (bag + multiset{k})[x] {
      assert CountOf(m, x) == bag[x];
    }
    if k in bag {
      forall x ensures CountOf(m[k := CountOf(m, k) - 1], x) == (bag - multiset{k})[x] {
        assert CountOf(m, x) == bag[x];
      }
    }
  }

  lemma KeysSnoc(items: seq<Item>, i: nat)
    requires i < |items|
    ensures multiset(Keys(items[..i + 1])) == multiset(Keys(items[..i])) + multiset{KeyText(items[i])}
    ensures AllValid(items[..i + 1]) <==> AllValid(items[..i]) && Valid(items[i])
  {
    hide KeyText, Valid;
    assert Keys(items[..i + 1]) == Keys(items[..i]) + [KeyText(items[i])];
    var a, b := items[..i], items[..i + 1];
    assert forall j :: 0 <= j < i ==> b[j] == a[j];
    assert b[i] == items[i];
  }

  lemma StrikeStep(offered: seq<Item>, i: nat, bag: multiset<string>)
    requires i <= |offered|
    ensures i == |offered| ==> Strike(offered[i..], bag) == Ok(true)
    ensures i < |offered| ==>
              Strike(offered[i..], bag) ==
              match Key(offered[i])
              case Thrown => Thrown
              case Ok(k) => if k !in bag then Ok(false) else Strike(offered[i + 1..], bag - multiset{k})
  {
    hide Key;
    if i < |offered| { assert offered[i..][0] == offered[i] && offered[i..][1..] == offered[i + 1..]; }
  }

  /** A leg has a key exactly when its amounts are readable. */
  lemma KeyRead(items: seq<Item>, i: nat)
    requires i < |items|
    ensures Valid(items[i]) <==> Key(items[i]).Ok?
    ensures if Key(items[i]).Ok? then KeyText(items[i]) == Key(items[i]).value else !AllValid(items)
  {
    hide IdentityOf;
  }

  lemma ComparableGuard(offered: seq<Item>, considered: seq<Item>)
    ensures Comparable(offered, considered) <==>
            |offered| == |considered| && !exists i | i in offered + considered :: IsCriteria(i)
  {
  }

  lemma NothingCounted(items: seq<Item>)
    ensures Counts(map[], multiset(Keys(items[..0]))) && AllValid(items[..0])
  {
  }

  method HaveSameConcreteNfts(offered: seq<Item>, considered: seq<Item>) returns (r: Result<bool>)
    ensures r == HaveSame(offered, considered)
    ensures r == Ok(true) <==>
            && (forall i :: i in offered + considered ==> i.itemType <= 3)
            && exists p :: Matched(offered, considered, p)
  {
    HaveSamePaired(offered, considered);
    hide Key, Valid, Keys, Strike, AllValid, Comparable, IdentityOf, Counts, KeyText, Matched;
    NothingCounted(considered);
    ComparableGuard(offered, considered);
    if |offered| != |considered| || exists i | i in offered + considered :: IsCriteria(i) {
      return Ok(false);
    }
    var unmatched: map<string, nat> := map[];
    for i := 0 to |considered|
      invariant AllValid(considered[..i])
      invariant Counts(unmatched, multiset(Keys(considered[..i])))
    {
      var key := Key(considered[i]);
      KeyRead(considered, i);
      if key.Thrown? { return Thrown; }
      KeysSnoc(considered, i);
      CountsChange(unmatched, multiset(Keys(considered[..i])), key.value);
      unmatched := unmatched[key.value := CountOf(unmatched, key.value) + 1];
    }
    assert considered[..|considered|] == considered && offered[0..] == offered;
    ghost var bag := multiset(Keys(considered));
    for i := 0 to |offered|
      invariant Counts(unmatched, bag)
      invariant Strike(offered[i..], bag) == HaveSame(offered, considered)
    {
      var key := Key(offered[i]);
      StrikeStep(offered, i, bag);
      if key.Thrown? { return Thrown; }
      CountsChange(unmatched, bag, key.value);
      var count := CountOf(unmatched, key.value);
      if count == 0 { return Ok(false); }
      unmatched := unmatched[key.value := count - 1];
      bag := bag - multiset{key.value};
    }
    StrikeStep(offered, |offered|, bag);
    return Ok(true);
  }

  /** The scan stops at the first item it refuses; otherwise every item carries its own offset. */
  method PrepareFillExecution(items: seq<Item>) returns (r: Result<Prepared>)
    ensures r == PrepareExecution(items)
  {
    hide ResolveNftSide, SummarizePayment, Amount, UnsignedAmount, Sold, UnitOffset;
    var offset: nat := 0;
    var resolved := ResolveNftSide(items);
    if resolved.Thrown? { return Thrown; }
    var side := resolved.value;
    var prepared: seq<PreparedItem> := [];
    OffsetStep(items, side, 0);
    for k := 0 to |items|
      invariant forall j | 0 <= j < k :: ItemAccepted(items, side, j)
      invariant offset == UnitOffset(items, side, k)
      invariant |prepared| == k
      invariant forall j | 0 <= j < k :: prepared[j] == PreparedItem(items[j], UnitOffset(items, side, j))
    {
      var item := items[k];
      OffsetStep(items, side, k + 1);
      if item.index != k || UnsignedAmount(item.identifier).Thrown? || !Readable(item) {
        assert !ItemAccepted(items, side, k);
        return Thrown;
      }
      prepared := prepared + [PreparedItem(item, offset)];
      if Sold(side)(item) {
        if Amount(item) == 0 {
          assert !ItemAccepted(items, side, k);
          return Thrown;
        }
        offset := offset + Amount(item);
      }
    }
    var payment := SummarizePayment(items);
    if payment.Thrown? { return Thrown; }
    r := Ok(Prepared(payment.value, prepared));
    assert prepared == PrepareExecution(items).value.items;
  }
}

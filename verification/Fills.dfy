/** Fill items, the identity of a concrete NFT leg and the side that carries the sold units. */
module Fills {
  import opened Common
  import opened Sequences
  import D = Decimal

  datatype Side = Offer | Consideration

  function Other(s: Side): Side { if s == Offer then Consideration else Offer }

  /** itemType: 0 native, 1 ERC-20, 2 ERC-721, 3 ERC-1155, 4 and 5 criteria-based NFTs. */
  datatype Item = Item(index: int, side: Side, itemType: int, contract: string, identifier: string,
                       amount: string, endAmount: Option<string>)

  const UINT256_END: nat := 0x1_0000_0000_0000_0000_0000_0000_0000_0000_0000_0000_0000_0000_0000_0000_0000_0000

  predicate IsNft(i: Item) { 2 <= i.itemType <= 5 }

  predicate IsMoney(i: Item) { i.itemType == 0 || i.itemType == 1 }

  predicate IsCriteria(i: Item) { i.itemType > 3 }

  function UnsignedAmount(text: string): Result<nat> {
    if D.Digits(text) && 1 <= |text| <= 78 && D.Val(text) < UINT256_END then Ok(D.Val(text)) else Thrown
  }

  function LowerChar(c: char): char { if 'A' <= c <= 'Z' then c - 'A' + 'a' else c }

  function Lower(s: string): string { MapSeq(s, LowerChar) }

  // ---------------------------------------------------------------- identity of an NFT leg

  /** What two legs must agree on to be the same NFT units. */
  datatype Identity = Identity(itemType: int, contract: string, id: nat, amount: nat, end: nat)

  function IdentityOf(i: Item): Result<Identity> {
    var end := if i.endAmount.Some? then i.endAmount.value else i.amount;
    match (UnsignedAmount(i.identifier), UnsignedAmount(i.amount), UnsignedAmount(end))
    case (Ok(id), Ok(amount), Ok(e)) => Ok(Identity(i.itemType, Lower(i.contract), id, amount, e))
    case _ => Thrown
  }

  predicate Valid(i: Item) { IdentityOf(i).Ok? }

  /** The text used as a map key: five fields joined by colons, the contract being arbitrary text. */
  function Render(k: Identity): string {
    D.IntText(k.itemType) + ":" + (k.contract + ":" + D.ToDec(k.id) + ":" + D.ToDec(k.amount) + ":" + D.ToDec(k.end))
  }

  predicate NoColon(s: string) { ':' !in s }

  lemma LastColon(p: string, s: string, q: string, t: string)
    requires NoColon(s) && NoColon(t) && p + ":" + s == q + ":" + t
    ensures p == q && s == t
  {
    var l, r := p + ":" + s, q + ":" + t;
    assert l[|p|] == ':' && forall k :: |p| < k < |l| ==> l[k] == s[k - |p| - 1];
    assert r[|q|] == ':' && forall k :: |q| < k < |r| ==> r[k] == t[k - |q| - 1];
    assert |p| == |q|;
    assert l[..|p|] == p && r[..|p|] == q;
    assert l[|p| + 1..] == s && r[|p| + 1..] == t;
  }

  lemma FirstColon(p: string, s: string, q: string, t: string)
    requires NoColon(p) && NoColon(q) && p + ":" + s == q + ":" + t
    ensures p == q && s == t
  {
    var l, r := p + ":" + s, q + ":" + t;
    assert l[|p|] == ':' && forall k :: 0 <= k < |p| ==> l[k] == p[k];
    assert r[|q|] == ':' && forall k :: 0 <= k < |q| ==> r[k] == q[k];
    assert |p| == |q|;
    assert l[..|p|] == p && r[..|p|] == q;
    assert l[|p| + 1..] == s && r[|p| + 1..] == t;
  }

  lemma DigitsNoColon(s: string)
    requires D.Digits(s)
    ensures NoColon(s)
  {
  }

  lemma IntTextInjective(m: int, n: int)
    ensures NoColon(D.IntText(m))
    ensures D.IntText(m) == D.IntText(n) ==> m == n
  {
    hide D.ToDec, D.Val;
    var a, b := if m < 0 then -m else m, if n < 0 then -n else n;
    DigitsNoColon(D.ToDec(a));
    assert m < 0 ==> D.IntText(m)[0] == '-' && D.IntText(m)[1..] == D.ToDec(a);
    assert n < 0 ==> D.IntText(n)[0] == '-' && D.IntText(n)[1..] == D.ToDec(b);
    if D.IntText(m) == D.IntText(n) {
      D.ToDecInjective(a, b);
    }
  }

  lemma LastField(p: string, m: nat, q: string, n: nat)
    requires p + ":" + D.ToDec(m) == q + ":" + D.ToDec(n)
    ensures p == q && m == n
  {
    hide D.ToDec;
    DigitsNoColon(D.ToDec(m));
    DigitsNoColon(D.ToDec(n));
    LastColon(p, D.ToDec(m), q, D.ToDec(n));
    D.ToDecInjective(m, n);
  }

  /** The key text determines the identity, even when a contract text contains colons. */
  lemma RenderInjective(a: Identity, b: Identity)
    requires Render(a) == Render(b)
    ensures a == b
  {
    hide D.ToDec, D.IntText;
    IntTextInjective(a.itemType, b.itemType);
    IntTextInjective(b.itemType, a.itemType);
    var a1, b1 := a.contract + ":" + D.ToDec(a.id), b.contract + ":" + D.ToDec(b.id);
    var a2, b2 := a1 + ":" + D.ToDec(a.amount), b1 + ":" + D.ToDec(b.amount);
    FirstColon(D.IntText(a.itemType), a2 + ":" + D.ToDec(a.end), D.IntText(b.itemType), b2 + ":" + D.ToDec(b.end));
    LastField(a2, a.end, b2, b.end);
    LastField(a1, a.amount, b1, b.amount);
    LastField(a.contract, a.id, b.contract, b.id);
  }

  // ---------------------------------------------------------------- multiset matching

  function Key(i: Item): Result<string> {
    match IdentityOf(i) case Ok(k) => Ok(Render(k)) case Thrown => Thrown
  }

  function KeyText(i: Item): string { if Key(i).Ok? then Key(i).value else "" }

  function KeyIdentity(i: Item): Identity {
    if Valid(i) then IdentityOf(i).value else Identity(0, "", 0, 0, 0)
  }

  predicate AllValid(items: seq<Item>) { forall i :: 0 <= i < |items| ==> Valid(items[i]) }

  function Keys(items: seq<Item>): (r: seq<string>)
    ensures |r| == |items|
  {
    MapSeq(items, KeyText)
  }

  function Identities(items: seq<Item>): (r: seq<Identity>)
    ensures |r| == |items|
  {
    MapSeq(items, KeyIdentity)
  }

  /** Strike each offered leg from the bag, in order; an invalid amount throws when its turn comes. */
  function Strike(offered: seq<Item>, bag: multiset<string>): Result<bool> {
    if offered == [] then Ok(true)
    else match Key(offered[0])
      case Thrown => Thrown
      case Ok(k) => if k !in bag then Ok(false) else Strike(offered[1..], bag - multiset{k})
  }

  predicate Comparable(offered: seq<Item>, considered: seq<Item>) {
    |offered| == |considered| && forall i :: i in offered + considered ==> !IsCriteria(i)
  }

  function HaveSame(offered: seq<Item>, considered: seq<Item>): Result<bool> {
    if !Comparable(offered, considered) then Ok(false)
    else if !AllValid(considered) then Thrown
    else Strike(offered, multiset(Keys(considered)))
  }

  lemma {:induction false} StrikeExact(offered: seq<Item>, bag: multiset<string>)
    ensures Strike(offered, bag) == Ok(true) <==> AllValid(offered) && multiset(Keys(offered)) <= bag
    ensures AllValid(offered) ==> Strike(offered, bag) == Ok(multiset(Keys(offered)) <= bag)
  {
    hide Key, Valid, MapSeq, IdentityOf;
    if offered == [] {
      assert Keys(offered) == [];
    } else {
      var x, rest := offered[0], offered[1..];
      ValidHasKey(x);
      assert AllValid(offered) <==> Valid(x) && AllValid(rest) by { AllValidCons(offered); }
      if Valid(x) {
        var k := KeyText(x);
        KeysCons(offered);
        if k in bag {
          StrikeExact(rest, bag - multiset{k});
          SubCons(multiset(Keys(rest)), bag, k);
        } else {
          assert k in multiset(Keys(offered));
        }
      }
    }
  }

  lemma ValidHasKey(i: Item)
    ensures Valid(i) <==> Key(i).Ok?
  {
    hide IdentityOf;
  }

  lemma AllValidCons(items: seq<Item>)
    requires items != []
    ensures AllValid(items) <==> Valid(items[0]) && AllValid(items[1..])
  {
    hide Valid;
    if Valid(items[0]) && AllValid(items[1..]) {
      forall i | 0 <= i < |items| ensures Valid(items[i]) {
        if i > 0 { assert items[i] == items[1..][i - 1]; }
      }
    }
  }

  lemma KeysCons(items: seq<Item>)
    requires items != []
    ensures multiset(Keys(items)) == multiset{KeyText(items[0])} + multiset(Keys(items[1..]))
  {
    hide KeyText, MapSeq;
    assert Keys(items) == [KeyText(items[0])] + Keys(items[1..]);
  }

  lemma SubCons(m: multiset<string>, bag: multiset<string>, k: string)
    requires k in bag
    ensures m <= bag - multiset{k} <==> multiset{k} + m <= bag
  {
    if multiset{k} + m <= bag {
      forall x ensures m[x] <= (bag - multiset{k})[x] { assert (multiset{k} + m)[x] <= bag[x]; }
    }
    if m <= bag - multiset{k} {
      forall x ensures (multiset{k} + m)[x] <= bag[x] { assert m[x] <= (bag - multiset{k})[x]; }
    }
  }

  lemma SubsetSameSize(m: multiset<string>, n: multiset<string>)
    requires m <= n && |m| == |n|
    ensures m == n
  {
    assert n == m + (n - m);
    assert |n - m| == 0;
  }

  lemma KeysAreRendered(items: seq<Item>)
    requires AllValid(items)
    ensures Keys(items) == MapSeq(Identities(items), Render)
  {
    hide Render, IdentityOf;
  }

  /** For valid legs, equal key bags are equal identity multisets. */
  lemma KeyBagExact(a: seq<Item>, b: seq<Item>)
    requires AllValid(a) && AllValid(b)
    ensures multiset(Keys(a)) == multiset(Keys(b)) <==> multiset(Identities(a)) == multiset(Identities(b))
  {
    hide *;
    KeysAreRendered(a);
    KeysAreRendered(b);
    forall x, y | Render(x) == Render(y) ensures x == y { RenderInjective(x, y); }
    if multiset(Keys(a)) == multiset(Keys(b)) {
      MapInjective(Identities(a), Identities(b), Render);
    }
    if multiset(Identities(a)) == multiset(Identities(b)) {
      MapPermutes(Identities(a), Identities(b), Render);
    }
  }

  lemma ComparableSize(offered: seq<Item>, considered: seq<Item>)
    requires Comparable(offered, considered)
    ensures |offered| == |considered|
  {
  }

  /** The comparison answers true exactly on equal multisets of canonical identities, and can throw
      only because of an amount that is not an unsigned 256-bit decimal. */
  lemma HaveSameExact(offered: seq<Item>, considered: seq<Item>)
    ensures HaveSame(offered, considered) == Ok(true) <==>
            Comparable(offered, considered) && AllValid(offered) && AllValid(considered)
            && multiset(Identities(offered)) == multiset(Identities(considered))
    ensures AllValid(offered) && AllValid(considered) ==>
              HaveSame(offered, considered) ==
              Ok(Comparable(offered, considered) && multiset(Identities(offered)) == multiset(Identities(considered)))
  {
    hide Comparable, AllValid, Keys, Identities, Strike, IdentityOf, Render;
    if Comparable(offered, considered) && AllValid(considered) {
      var bag := multiset(Keys(considered));
      StrikeExact(offered, bag);
      ComparableSize(offered, considered);
      assert |multiset(Keys(offered))| == |Keys(offered)| && |bag| == |Keys(considered)|;
      if AllValid(offered) {
        KeyBagExact(offered, considered);
        if multiset(Keys(offered)) <= bag { SubsetSameSize(multiset(Keys(offered)), bag); }
      }
    }
  }

  // ---------------------------------------------------------------- the sold side

  function NftOn(s: Side): Item -> bool { (i: Item) => IsNft(i) && i.side == s }

  function PaymentSides(items: seq<Item>): set<Side> { set i | i in items && IsMoney(i) :: i.side }

  function ResolveNftSide(items: seq<Item>): Result<Option<Side>> {
    var offered := Filter(items, NftOn(Offer));
    var considered := Filter(items, NftOn(Consideration));
    if offered == [] && considered == [] then Ok(None)
    else if considered == [] then Ok(Some(Offer))
    else if offered == [] then Ok(Some(Consideration))
    else match HaveSame(offered, considered)
      case Thrown => Thrown
      case Ok(same) =>
        var sides := PaymentSides(items);
        if !same || |sides| != 1 then Ok(None)
        else if Offer in sides then Ok(Some(Consideration))
        else Ok(Some(Offer))
  }

  lemma SidesCardinality(sides: set<Side>)
    ensures |sides| == 1 <==> (Offer in sides) != (Consideration in sides)
  {
    assert forall s :: s in sides ==> s == Offer || s == Consideration;
    if Offer in sides && Consideration in sides {
      assert sides == {Offer, Consideration};
    } else if Offer in sides {
      assert sides == {Offer};
    } else if Consideration in sides {
      assert sides == {Consideration};
    } else {
      assert sides == {};
    }
  }

  /** Every NFT leg carries amounts the comparison can read. */
  predicate NftsValid(items: seq<Item>) { forall i :: i in items && IsNft(i) ==> Valid(i) }

  lemma FilteredValid(items: seq<Item>, s: Side)
    requires NftsValid(items)
    ensures AllValid(Filter(items, NftOn(s)))
  {
    hide Valid, Filter;
    var r := Filter(items, NftOn(s));
    forall i | 0 <= i < |r| ensures Valid(r[i]) { assert r[i] in r; }
  }

  /** With readable NFT amounts the comparison is a question about contents, so order is irrelevant. */
  lemma HaveSamePermutes(o1: seq<Item>, c1: seq<Item>, o2: seq<Item>, c2: seq<Item>)
    requires AllValid(o1) && AllValid(c1) && AllValid(o2) && AllValid(c2)
    requires multiset(o1) == multiset(o2) && multiset(c1) == multiset(c2)
    ensures HaveSame(o1, c1) == HaveSame(o2, c2)
  {
    hide *;
    HaveSameExact(o1, c1);
    HaveSameExact(o2, c2);
    PermutesLength(o1, o2);
    PermutesLength(c1, c2);
    IdentitiesPermute(o1, o2);
    IdentitiesPermute(c1, c2);
    ComparablePermutes(o1, c1, o2, c2);
  }

  lemma IdentitiesPermute(a: seq<Item>, b: seq<Item>)
    requires multiset(a) == multiset(b)
    ensures multiset(Identities(a)) == multiset(Identities(b))
  {
    hide MapSeq, KeyIdentity;
    MapPermutes(a, b, KeyIdentity);
  }

  lemma ComparablePermutes(o1: seq<Item>, c1: seq<Item>, o2: seq<Item>, c2: seq<Item>)
    requires multiset(o1) == multiset(o2) && multiset(c1) == multiset(c2)
    ensures Comparable(o1, c1) == Comparable(o2, c2)
  {
    hide IsCriteria;
    PermutesLength(o1, o2);
    PermutesLength(c1, c2);
  }

  lemma ComparableSymmetric(o: seq<Item>, c: seq<Item>)
    ensures Comparable(o, c) == Comparable(c, o)
  {
    hide IsCriteria;
  }

  lemma ReadUnit(s: string, n: nat)
    requires n < 10 && s == [D.DigitChar(n)]
    ensures UnsignedAmount(s) == Ok(n)
  {
    assert s == "" + [s[0]];
    D.ValSnoc("", s[0]);
  }

  lemma KeysDiffer(x: Item, y: Item)
    requires Valid(x) && Valid(y) && IdentityOf(x) != IdentityOf(y)
    ensures Key(x).Ok? && Key(y).Ok? && KeyText(x) != KeyText(y)
  {
    hide Render;
    if KeyText(x) == KeyText(y) { RenderInjective(IdentityOf(x).value, IdentityOf(y).value); }
  }

  function SwapItem(i: Item): Item { i.(side := Other(i.side)) }

  function SwapSides(items: seq<Item>): (r: seq<Item>)
    ensures |r| == |items|
  {
    MapSeq(items, SwapItem)
  }

  lemma {:induction false} SwapFilter(items: seq<Item>, s: Side)
    ensures Filter(SwapSides(items), NftOn(s)) == SwapSides(Filter(items, NftOn(Other(s))))
  {
    if items != [] {
      var n := |items| - 1;
      SwapFilter(items[..n], s);
      assert SwapSides(items)[..n] == SwapSides(items[..n]);
    }
  }

  /** The side plays no part in a leg's identity. */
  lemma SwapIdentities(items: seq<Item>)
    ensures Identities(SwapSides(items)) == Identities(items)
    ensures AllValid(SwapSides(items)) == AllValid(items)
  {
    hide UnsignedAmount, Lower;
    assert forall i :: IdentityOf(SwapItem(i)) == IdentityOf(i);
  }

  lemma SwapComparable(o: seq<Item>, c: seq<Item>)
    ensures Comparable(SwapSides(o), SwapSides(c)) == Comparable(o, c)
  {
    hide MapSeq;
    var p, q := o + c, SwapSides(o) + SwapSides(c);
    assert |o| == |c| ==> |p| == |q|;
    assert forall k :: 0 <= k < |p| ==> q[k] == SwapItem(p[k]);
    assert (forall i :: i in p ==> !IsCriteria(i)) <==> (forall k :: 0 <= k < |p| ==> !IsCriteria(p[k]));
    assert (forall i :: i in q ==> !IsCriteria(i)) <==> (forall k :: 0 <= k < |q| ==> !IsCriteria(q[k]));
  }

  lemma SwapPaymentSides(items: seq<Item>, s: Side)
    ensures s in PaymentSides(SwapSides(items)) <==> Other(s) in PaymentSides(items)
  {
    hide MapSeq;
    var w := SwapSides(items);
    if s in PaymentSides(w) {
      var k :| 0 <= k < |w| && IsMoney(w[k]) && w[k].side == s;
      assert items[k] in items && IsMoney(items[k]);
    }
    if Other(s) in PaymentSides(items) {
      var k :| 0 <= k < |items| && IsMoney(items[k]) && items[k].side == Other(s);
      assert w[k] in w && IsMoney(w[k]);
    }
  }

  predicate HasNft(items: seq<Item>, s: Side) { exists i :: i in items && IsNft(i) && i.side == s }

  /** The NFT legs of one side, as identities. */
  function LegsOn(items: seq<Item>, s: Side): seq<Identity> { Identities(Filter(items, NftOn(s))) }

  /** Forwarded legs: the two sides list the same concrete NFTs, and money moves on the other side only. */
  predicate Forwarded(items: seq<Item>, s: Side) {
    && (forall i :: i in items && IsNft(i) ==> !IsCriteria(i) && Valid(i))
    && |LegsOn(items, s)| == |LegsOn(items, Other(s))|
    && multiset(LegsOn(items, s)) == multiset(LegsOn(items, Other(s)))
    && (exists i :: i in items && IsMoney(i))
    && forall i :: i in items && IsMoney(i) ==> i.side == Other(s)
  }

  /** A side is resolved exactly when it carries NFTs and either the other side carries none, or the legs
      are merely forwarded against payment from the other side. */
  lemma ResolveExactly(items: seq<Item>, s: Side)
    ensures ResolveNftSide(items) == Ok(Some(s)) <==>
            HasNft(items, s) && (!HasNft(items, Other(s)) || Forwarded(items, s))
  {
    hide HaveSame, Filter, Identities, Valid, AllValid, Comparable, PaymentSides;
    var o, c := Filter(items, NftOn(Offer)), Filter(items, NftOn(Consideration));
    SideListed(items, Offer);
    SideListed(items, Consideration);
    HaveSameExact(o, c);
    SidesCardinality(PaymentSides(items));
    MoneyListed(items, Offer);
    MoneyListed(items, Consideration);
    LegsComparable(items);
  }

  lemma SideListed(items: seq<Item>, s: Side)
    ensures Filter(items, NftOn(s)) != [] <==> HasNft(items, s)
  {
    hide Filter;
    var r := Filter(items, NftOn(s));
    if r != [] { assert r[0] in r; }
  }

  lemma MoneyListed(items: seq<Item>, s: Side)
    ensures s in PaymentSides(items) <==> exists i :: i in items && IsMoney(i) && i.side == s
  {
  }

  lemma LegsComparable(items: seq<Item>)
    ensures var o, c := Filter(items, NftOn(Offer)), Filter(items, NftOn(Consideration));
            Comparable(o, c) && AllValid(o) && AllValid(c) <==>
            |o| == |c| && forall i :: i in items && IsNft(i) ==> !IsCriteria(i) && Valid(i)
  {
    hide Filter, Valid, IsCriteria;
    var o, c := Filter(items, NftOn(Offer)), Filter(items, NftOn(Consideration));
    assert forall i :: i in o + c <==> i in items && IsNft(i);
    assert AllValid(o) <==> forall i :: i in o ==> Valid(i);
    assert AllValid(c) <==> forall i :: i in c ==> Valid(i);
  }
}

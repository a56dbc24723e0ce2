/** Classifying an execution's payment, numbering its sold units and attributing whole wei to them. */
module FillPayments {
  import opened Common
  import opened Sequences
  import opened Fills
  import opened FillOrder

  datatype Exclusion = Swap | MixedPayment | NoPayment | UnsupportedItems

  datatype Payment =
    | Excluded(exclusion: Exclusion, nftQuantity: nat)
    | Priced(totalPrice: nat, currency: string, nftQuantity: nat)

  function Amount(i: Item): nat {
    if UnsignedAmount(i.amount).Ok? then UnsignedAmount(i.amount).value else 0
  }

  predicate Readable(i: Item) { UnsignedAmount(i.amount).Ok? }

  predicate Positive(i: Item) { Readable(i) && Amount(i) > 0 }

  predicate Supported(i: Item) { 0 <= i.itemType <= 3 }

  /** NFT legs that count: those on the resolved side, or all of them when no side was resolved. */
  function Sold(side: Option<Side>): Item -> bool {
    (i: Item) => IsNft(i) && (side.None? || i.side == side.value)
  }

  function NotNft(): Item -> bool { (i: Item) => !IsNft(i) }

  function PaidFrom(s: Side): Item -> bool { (i: Item) => !IsNft(i) && i.side == s }

  function Amounts(): Item -> int { (i: Item) => Amount(i) }

  function Total(items: seq<Item>): int { SumBy(items, Amounts()) }

  predicate All(items: seq<Item>, p: Item -> bool) { forall i :: i in items ==> p(i) }

  function Currencies(money: seq<Item>): set<string> { set i | i in money :: Lower(i.contract) }

  function SummarizePayment(items: seq<Item>): Result<Payment> {
    match ResolveNftSide(items)
    case Thrown => Thrown
    case Ok(side) =>
      var nfts := Filter(items, Sold(side));
      if !All(nfts, Positive) then Thrown
      else
        TotalIsNat(nfts);
        var quantity: nat := Total(nfts);
        if !All(items, Supported) then Ok(Excluded(UnsupportedItems, quantity))
        else if side.None? then Ok(Excluded(if nfts != [] then Swap else UnsupportedItems, quantity))
        else PriceOf(items, side.value, quantity)
  }

  /** The monetary half, reached once the sold side is known and every item is supported. */
  function PriceOf(items: seq<Item>, side: Side, quantity: nat): Result<Payment> {
    var money := Filter(items, NotNft());
    if money == [] then Ok(Excluded(NoPayment, quantity))
    else if |Currencies(money)| != 1 then Ok(Excluded(MixedPayment, quantity))
    else
      var payments := Filter(money, PaidFrom(Other(side)));
      if payments == [] then Ok(Excluded(NoPayment, quantity))
      else if !All(payments, Readable) then Thrown
      else
        TotalIsNat(payments);
        var total: nat := Total(payments);
        var returned := Filter(money, PaidFrom(side));
        if returned != [] && side == Offer then Ok(Excluded(MixedPayment, quantity))
        else if !All(returned, Readable) then Thrown
        else if returned != [] && Total(returned) > total then Ok(Excluded(MixedPayment, quantity))
        else Ok(Priced(total, Lower(money[0].contract), quantity))
  }

  lemma {:induction false} TotalIsNat(items: seq<Item>)
    ensures Total(items) >= 0
  {
    hide Amount;
    if items != [] { TotalIsNat(items[..|items| - 1]); }
  }

  // ---------------------------------------------------------------- order is irrelevant

  lemma TotalPermutes(a: seq<Item>, b: seq<Item>)
    requires multiset(a) == multiset(b)
    ensures Total(a) == Total(b)
  {
    hide SumBy;
    SumPermutes(a, b, Amounts());
  }

  lemma AllPermutes(a: seq<Item>, b: seq<Item>, p: Item -> bool)
    requires multiset(a) == multiset(b)
    ensures All(a, p) == All(b, p)
  {
    PermutesLength(a, b);
  }

  lemma KeepsOrder(a: seq<Item>, b: seq<Item>, p: Item -> bool)
    requires multiset(a) == multiset(b)
    ensures multiset(Filter(a, p)) == multiset(Filter(b, p))
    ensures (Filter(a, p) == []) == (Filter(b, p) == [])
    ensures Total(Filter(a, p)) == Total(Filter(b, p))
    ensures All(Filter(a, p), Positive) == All(Filter(b, p), Positive)
    ensures All(Filter(a, p), Readable) == All(Filter(b, p), Readable)
  {
    hide *;
    FilterPermutes(a, b, p);
    PermutesLength(Filter(a, p), Filter(b, p));
    TotalPermutes(Filter(a, p), Filter(b, p));
    AllPermutes(Filter(a, p), Filter(b, p), Positive);
    AllPermutes(Filter(a, p), Filter(b, p), Readable);
  }

  /** With one currency, the first item names it whichever item comes first. */
  lemma OneCurrency(a: seq<Item>, b: seq<Item>)
    requires multiset(a) == multiset(b)
    ensures Currencies(a) == Currencies(b)
    ensures a != [] && |Currencies(a)| == 1 ==> b != [] && Lower(a[0].contract) == Lower(b[0].contract)
  {
    hide Lower;
    PermutesLength(a, b);
    assert Currencies(a) == Currencies(b);
    if a != [] && |Currencies(a)| == 1 {
      var x, y := Lower(a[0].contract), Lower(b[0].contract);
      assert a[0] in a && b[0] in b;
      assert x in Currencies(a) && y in Currencies(a);
      Singleton(Currencies(a), x, y);
    }
  }

  lemma Singleton(s: set<string>, x: string, y: string)
    requires |s| == 1 && x in s && y in s
    ensures x == y
  {
    assert |s - {x}| == 0;
  }

  lemma PricePermutes(a: seq<Item>, b: seq<Item>, side: Side, quantity: nat)
    requires multiset(a) == multiset(b)
    ensures PriceOf(a, side, quantity) == PriceOf(b, side, quantity)
  {
    hide Filter, Total, All, Currencies, NotNft, PaidFrom, Lower, Other;
    KeepsOrder(a, b, NotNft());
    var m, n := Filter(a, NotNft()), Filter(b, NotNft());
    OneCurrency(m, n);
    KeepsOrder(m, n, PaidFrom(side));
    KeepsOrder(m, n, PaidFrom(Other(side)));
  }

  /** The payment does not depend on item order as long as the items are not sensitive. */
  lemma SummarizePermutes(a: seq<Item>, b: seq<Item>)
    requires multiset(a) == multiset(b) && !OrderSensitive(a)
    ensures SummarizePayment(a) == SummarizePayment(b)
  {
    hide Filter, Total, All, ResolveNftSide, Sold, PriceOf, OrderSensitive;
    ResolvePermutes(a, b);
    var r := ResolveNftSide(a);
    if r.Ok? {
      KeepsOrder(a, b, Sold(r.value));
      AllPermutes(a, b, Supported);
      if r.value.Some? && All(Filter(a, Sold(r.value)), Positive) {
        TotalIsNat(Filter(a, Sold(r.value)));
        PricePermutes(a, b, r.value.value, Total(Filter(a, Sold(r.value))));
      }
    }
  }

  /** A summary that resolves no side throws exactly when some NFT quantity is not positive. */
  lemma UnresolvedSummary(items: seq<Item>)
    requires ResolveNftSide(items) == Ok(None)
    ensures SummarizePayment(items).Ok? <==> forall i :: i in items && IsNft(i) ==> Positive(i)
  {
    hide Filter, ResolveNftSide, Total, Positive;
    var nfts := Filter(items, Sold(None));
    assert forall i :: i in nfts <==> i in items && IsNft(i);
  }

  /** Some order of the items is summarized differently exactly when they are sensitive and every NFT
      quantity is positive: what is unreadable is then an identifier or a declared end amount. */
  lemma SummaryOrderExactly(items: seq<Item>)
    ensures (exists p :: multiset(p) == multiset(items) && SummarizePayment(p) != SummarizePayment(items)) <==>
            OrderSensitive(items) && forall i :: i in items && IsNft(i) ==> Positive(i)
  {
    hide Filter, ResolveNftSide, SummarizePayment, OrderSensitive, Positive, Sorted, OfferedIf;
    if OrderSensitive(items) {
      SensitiveSummaries(items);
    } else {
      forall p | multiset(p) == multiset(items) ensures SummarizePayment(p) == SummarizePayment(items) {
        SummarizePermutes(items, p);
      }
    }
  }

  lemma SensitiveSummaries(items: seq<Item>)
    requires OrderSensitive(items)
    ensures (exists p :: multiset(p) == multiset(items) && SummarizePayment(p) != SummarizePayment(items)) <==>
            forall i :: i in items && IsNft(i) ==> Positive(i)
  {
    hide Filter, ResolveNftSide, OrderSensitive, Positive, Sorted, OfferedIf;
    var p, q := Sorted(items, OfferedIf(true)), Sorted(items, OfferedIf(false));
    SortedPermutes(items, OfferedIf(true));
    SortedPermutes(items, OfferedIf(false));
    ReadableInFront(items);
    UnreadableInFront(items);
    PermutesLength(items, p);
    UnresolvedSummary(p);
    assert SummarizePayment(q) == Thrown;
    if !forall i :: i in items && IsNft(i) ==> Positive(i) {
      forall r | multiset(r) == multiset(items) ensures SummarizePayment(r) == Thrown {
        SensitiveThrows(r, items);
      }
    }
  }

  lemma SensitiveThrows(r: seq<Item>, items: seq<Item>)
    requires multiset(r) == multiset(items) && OrderSensitive(items)
    requires !forall i :: i in items && IsNft(i) ==> Positive(i)
    ensures SummarizePayment(r) == Thrown
  {
    hide Filter, ResolveNftSide, OrderSensitive, Positive, Sorted, OfferedIf;
    PermutesLength(r, items);
    ResolvePermutes(items, r);
    SensitiveUnresolved(r);
    if ResolveNftSide(r).Ok? { UnresolvedSummary(r); }
  }

  // ---------------------------------------------------------------- numbering the sold units

  datatype PreparedItem = PreparedItem(item: Item, unitOffset: nat)

  datatype Prepared = Prepared(payment: Payment, items: seq<PreparedItem>)

  /** Units an item adds to the running offset. */
  function Units(side: Option<Side>, i: Item): nat { if Sold(side)(i) then Amount(i) else 0 }

  /** Offset of item k: units sold by the items before it. */
  function UnitOffset(items: seq<Item>, side: Option<Side>, k: nat): (n: nat)
    requires k <= |items|
  {
    if k == 0 then 0 else UnitOffset(items, side, k - 1) + Units(side, items[k - 1])
  }

  predicate ItemAccepted(items: seq<Item>, side: Option<Side>, k: nat)
    requires k < |items|
  {
    && items[k].index == k
    && UnsignedAmount(items[k].identifier).Ok?
    && Readable(items[k])
    && (Sold(side)(items[k]) ==> Amount(items[k]) > 0)
  }

  function PrepareExecution(items: seq<Item>): Result<Prepared> {
    match ResolveNftSide(items)
    case Thrown => Thrown
    case Ok(side) =>
      if exists k | 0 <= k < |items| :: !ItemAccepted(items, side, k) then Thrown
      else match SummarizePayment(items)
        case Thrown => Thrown
        case Ok(payment) =>
          Ok(Prepared(payment, seq(|items|, k requires 0 <= k < |items| =>
                                     PreparedItem(items[k], UnitOffset(items, side, k)))))
  }

  // ---------------------------------------------------------------- attributing whole wei

  datatype Basis = Unit | BundleAverage

  datatype Allocation = Allocation(numeratorWei: int, denominator: int, attributedPrice: int, basis: Basis)

  function Allocate(total: int, count: int, units: int, offset: int): Result<Allocation> {
    if total < 0 || count <= 0 || units <= 0 || offset < 0 || offset + units > count then Thrown
    else
      var extra := Extra(LeftOver(total, count), offset, units);
      Ok(Allocation(total, count, units * FloorShare(total, count) + extra,
                    if count == units then Unit else BundleAverage))
  }

  function FloorShare(total: nat, count: nat): nat
    requires count > 0
  {
    total / count
  }

  function LeftOver(total: nat, count: nat): nat
    requires count > 0
  {
    total % count
  }

  /** How many of the run's units are among the earliest, which share the remainder. */
  function Extra(remainder: int, offset: int, units: int): int {
    if remainder <= offset then 0
    else if remainder >= offset + units then units
    else remainder - offset
  }

  /** Price of the unit at one offset: the floor share, plus one wei for the earliest units. */
  function UnitShare(total: nat, count: nat, u: nat): nat
    requires count > 0
  {
    FloorShare(total, count) + if u < LeftOver(total, count) then 1 else 0
  }

  /** What the first x units receive together. */
  function Share(total: nat, count: nat, x: nat): nat
    requires count > 0
  {
    if x == 0 then 0 else Share(total, count, x - 1) + UnitShare(total, count, x - 1)
  }

  lemma Distribute(x: nat, q: nat)
    ensures (x + 1) * q == x * q + q
  {
  }

  lemma {:induction false} ShareClosed(total: nat, count: nat, x: nat)
    requires count > 0
    ensures Share(total, count, x) == x * FloorShare(total, count) + Min(x, LeftOver(total, count))
  {
    hide FloorShare, LeftOver;
    if x > 0 {
      ShareClosed(total, count, x - 1);
      Distribute(x - 1, FloorShare(total, count));
    }
  }

  lemma ShareWhole(total: nat, count: nat)
    requires count > 0
    ensures Share(total, count, count) == total
  {
    ShareClosed(total, count, count);
  }

  lemma Combine(x: nat, y: nat, q: nat)
    ensures (x + y) * q == x * q + y * q
  {
  }

  lemma ExtraIsDifference(remainder: int, offset: int, units: nat)
    ensures Extra(remainder, offset, units) == Min(offset + units, remainder) - Min(offset, remainder)
  {
  }

  lemma PriceIsDifference(units: nat, offset: nat, q: nat, r: nat)
    ensures units * q + Extra(r, offset, units) ==
            ((offset + units) * q + Min(offset + units, r)) - (offset * q + Min(offset, r))
  {
    hide Extra;
    ExtraIsDifference(r, offset, units);
    Combine(offset, units, q);
  }

  /** An allocation is accepted exactly for a nonempty run of units inside the execution, and pays
      that run the sum of its units' shares. */
  lemma AllocateExact(total: int, count: int, units: int, offset: int)
    ensures Allocate(total, count, units, offset).Ok? <==>
            total >= 0 && units > 0 && offset >= 0 && offset + units <= count
    ensures Allocate(total, count, units, offset).Ok? ==>
              Allocate(total, count, units, offset).value.attributedPrice
              == Share(total, count, offset + units) - Share(total, count, offset)
    ensures Allocate(total, count, units, offset).Ok? ==>
              var a := Allocate(total, count, units, offset).value;
              && a.numeratorWei == total && a.denominator == count
              && (a.basis.Unit? <==> offset == 0 && offset + units == count)
  {
    hide Share, Extra, FloorShare, LeftOver;
    if total >= 0 && units > 0 && offset >= 0 && offset + units <= count {
      ShareClosed(total, count, offset + units);
      ShareClosed(total, count, offset);
      PriceIsDifference(units, offset, FloorShare(total, count), LeftOver(total, count));
    }
  }

  /** Every unit gets the floor or the ceiling of the average, and earlier units never get less. */
  lemma UnitShareFair(total: nat, count: nat, u: nat, v: nat)
    requires u <= v < count
    ensures UnitShare(total, count, v) <= UnitShare(total, count, u) <= UnitShare(total, count, v) + 1
    ensures UnitShare(total, count, u) * count < total + count && total < (UnitShare(total, count, u) + 1) * count
  {
    var q, r := total / count, total % count;
    assert total == q * count + r;
    Combine(q, 1, count);
    Combine(q + 1, 1, count);
  }

  // ---------------------------------------------------------------- conservation

  /** What allocating prepared item k with its own offset attributes to it. */
  function Attribution(p: Prepared, k: nat): Result<Allocation>
    requires k < |p.items| && p.payment.Priced?
  {
    Allocate(p.payment.totalPrice, p.payment.nftQuantity, Amount(p.items[k].item), p.items[k].unitOffset)
  }

  /** Sum of the prices attributed to the sold items among the first k; a throw counts as nothing. */
  function AttributedSum(p: Prepared, side: Option<Side>, k: nat): int
    requires k <= |p.items| && p.payment.Priced?
  {
    if k == 0 then 0
    else AttributedSum(p, side, k - 1)
         + if Sold(side)(p.items[k - 1].item) && Attribution(p, k - 1).Ok?
           then Attribution(p, k - 1).value.attributedPrice else 0
  }

  function UnitsBy(side: Option<Side>): Item -> int { (i: Item) => Units(side, i) }

  lemma {:induction false} OffsetIsSum(items: seq<Item>, side: Option<Side>, k: nat)
    requires k <= |items|
    ensures UnitOffset(items, side, k) == SumBy(items[..k], UnitsBy(side))
  {
    hide Units;
    if k > 0 {
      OffsetIsSum(items, side, k - 1);
      assert items[..k][..k - 1] == items[..k - 1];
    }
  }

  /** The declared quantity is exactly the last offset: every sold unit has one number below it. */
  lemma QuantityIsLastOffset(items: seq<Item>, side: Option<Side>)
    ensures Total(Filter(items, Sold(side))) == UnitOffset(items, side, |items|)
  {
    hide SumBy, Filter, UnitOffset, Amount;
    OffsetIsSum(items, side, |items|);
    assert items[..|items|] == items;
    SumFilter(items, Sold(side), Amounts(), UnitsBy(side));
  }

  lemma {:induction false} OffsetGrows(items: seq<Item>, side: Option<Side>, j: nat, k: nat)
    requires j <= k <= |items|
    ensures UnitOffset(items, side, j) <= UnitOffset(items, side, k)
  {
    hide Units;
    if j < k { OffsetGrows(items, side, j, k - 1); }
  }

  lemma ResolvedHasNft(items: seq<Item>, s: Side) returns (k: nat)
    requires ResolveNftSide(items) == Ok(Some(s))
    ensures k < |items| && IsNft(items[k]) && items[k].side == s
  {
    hide HaveSame, PaymentSides, Filter;
    var nfts := Filter(items, NftOn(s));
    assert nfts != [];
    assert nfts[0] in items;
    k :| 0 <= k < |items| && items[k] == nfts[0];
    assert NftOn(s)(nfts[0]);
  }

  /** What a priced execution tells about its parts. */
  lemma PricedParts(items: seq<Item>) returns (s: Side)
    requires PrepareExecution(items).Ok? && PrepareExecution(items).value.payment.Priced?
    ensures ResolveNftSide(items) == Ok(Some(s))
    ensures forall k | 0 <= k < |items| :: ItemAccepted(items, Some(s), k)
    ensures PrepareExecution(items).value.payment.nftQuantity == UnitOffset(items, Some(s), |items|)
    ensures |PrepareExecution(items).value.items| == |items|
    ensures forall k | 0 <= k < |items| ::
              PrepareExecution(items).value.items[k] == PreparedItem(items[k], UnitOffset(items, Some(s), k))
  {
    hide Filter, Total, All, ResolveNftSide, Sold, PriceOf, ItemAccepted, UnitOffset;
    var side := ResolveNftSide(items).value;
    QuantityIsLastOffset(items, side);
    s := side.value;
    TotalIsNat(Filter(items, Sold(side)));
    PriceQuantity(items, s, Total(Filter(items, Sold(side))));
  }

  lemma OffsetStep(items: seq<Item>, side: Option<Side>, k: nat)
    requires k <= |items|
    ensures UnitOffset(items, side, k) ==
            if k == 0 then 0 else UnitOffset(items, side, k - 1) + Units(side, items[k - 1])
  {
  }

  lemma AttributionIsShare(p: Prepared, side: Option<Side>, k: nat)
    requires p.payment.Priced? && p.payment.nftQuantity > 0 && k < |p.items|
    requires Sold(side)(p.items[k].item) ==> Attribution(p, k).Ok?
    ensures var e := p.items[k];
            Share(p.payment.totalPrice, p.payment.nftQuantity, e.unitOffset + Units(side, e.item))
            == Share(p.payment.totalPrice, p.payment.nftQuantity, e.unitOffset)
               + if Sold(side)(e.item) && Attribution(p, k).Ok? then Attribution(p, k).value.attributedPrice else 0
  {
    hide Share, Allocate, Amount, Sold;
    var e := p.items[k];
    AllocateExact(p.payment.totalPrice, p.payment.nftQuantity, Amount(e.item), e.unitOffset);
  }

  lemma {:induction false} AttributedIsShare(p: Prepared, items: seq<Item>, side: Option<Side>, k: nat)
    requires p.payment.Priced? && p.payment.nftQuantity > 0 && |p.items| == |items| && k <= |items|
    requires forall j | 0 <= j < |items| :: p.items[j] == PreparedItem(items[j], UnitOffset(items, side, j))
    requires forall j | 0 <= j < |items| && Sold(side)(items[j]) :: Attribution(p, j).Ok?
    ensures AttributedSum(p, side, k) == Share(p.payment.totalPrice, p.payment.nftQuantity, UnitOffset(items, side, k))
  {
    hide Allocate, Amount, Sold, Units, UnitShare, Attribution;
    hide UnitOffset;
    OffsetStep(items, side, k);
    if k > 0 {
      hide Share;
      AttributedIsShare(p, items, side, k - 1);
      assert p.items[k - 1] == PreparedItem(items[k - 1], UnitOffset(items, side, k - 1));
      AttributionIsShare(p, side, k - 1);
    }
  }

  lemma SoldOn(i: Item, s: Side)
    requires IsNft(i) && i.side == s
    ensures Sold(Some(s))(i)
  {
  }

  lemma AttributionAccepted(p: Prepared, items: seq<Item>, side: Option<Side>, k: nat)
    requires p.payment.Priced? && |p.items| == |items| && k < |items| && Sold(side)(items[k])
    requires ItemAccepted(items, side, k) && p.items[k] == PreparedItem(items[k], UnitOffset(items, side, k))
    requires p.payment.nftQuantity == UnitOffset(items, side, |items|)
    ensures Attribution(p, k).Ok? && p.payment.nftQuantity > 0
  {
    hide Amount, Sold, UnitOffset, Allocate, UnsignedAmount, Readable;
    OffsetStep(items, side, k + 1);
    OffsetGrows(items, side, k + 1, |items|);
    AllocateExact(p.payment.totalPrice, p.payment.nftQuantity, Amount(items[k]), UnitOffset(items, side, k));
  }

  /** Allocating every sold item of a priced execution with its own offset never throws, and the
      attributed prices add up to the total price exactly. */
  lemma PaymentConservation(items: seq<Item>)
    requires PrepareExecution(items).Ok? && PrepareExecution(items).value.payment.Priced?
    ensures ResolveNftSide(items).Ok?
    ensures var p, side := PrepareExecution(items).value, ResolveNftSide(items).value;
            && |p.items| == |items|
            && (forall k | 0 <= k < |items| && Sold(side)(items[k]) :: Attribution(p, k).Ok?)
            && AttributedSum(p, side, |items|) == p.payment.totalPrice
  {
    hide *;
    var p := PrepareExecution(items).value;
    var s := PricedParts(items);
    var side, n := Some(s), |items|;
    forall k | 0 <= k < n && Sold(side)(items[k]) ensures Attribution(p, k).Ok? && p.payment.nftQuantity > 0 {
      AttributionAccepted(p, items, side, k);
    }
    var k := ResolvedHasNft(items, s);
    SoldOn(items[k], s);
    assert p.payment.nftQuantity > 0;
    AttributedIsShare(p, items, side, n);
    ShareWhole(p.payment.totalPrice, p.payment.nftQuantity);
  }

  // ---------------------------------------------------------------- what a price means

  /** Amounts of the money items on one side. */
  function MoneyBy(s: Side): Item -> int { (i: Item) => if !IsNft(i) && i.side == s then Amount(i) else 0 }

  predicate HasMoney(items: seq<Item>, s: Side) { exists i :: i in items && !IsNft(i) && i.side == s }

  /** Every item that is not an NFT is readable and denominated in one currency. */
  predicate OneReadableCurrency(items: seq<Item>, currency: string) {
    forall i :: i in items && !IsNft(i) ==> Readable(i) && Lower(i.contract) == currency
  }

  predicate SoldPositive(items: seq<Item>, s: Side) {
    forall i :: i in items && IsNft(i) && i.side == s ==> Positive(i)
  }

  lemma {:induction false} FilterTwice(xs: seq<Item>, s: Side)
    ensures Filter(Filter(xs, NotNft()), PaidFrom(s)) == Filter(xs, PaidFrom(s))
  {
    if xs != [] {
      var n := |xs| - 1;
      FilterTwice(xs[..n], s);
      var r := Filter(xs[..n], NotNft());
      if !IsNft(xs[n]) { assert (r + [xs[n]])[..|r|] == r; }
    }
  }

  lemma PaidListed(items: seq<Item>, s: Side)
    ensures Filter(items, PaidFrom(s)) != [] <==> HasMoney(items, s)
    ensures Total(Filter(items, PaidFrom(s))) == SumBy(items, MoneyBy(s))
    ensures All(Filter(items, PaidFrom(s)), Readable) <==>
            forall i :: i in items && !IsNft(i) && i.side == s ==> Readable(i)
  {
    hide Filter, SumBy, Readable, Amount;
    var r := Filter(items, PaidFrom(s));
    if r != [] { assert r[0] in r; }
    SumFilter(items, PaidFrom(s), Amounts(), MoneyBy(s));
  }

  lemma CurrencyListed(money: seq<Item>, currency: string)
    requires money != []
    ensures |Currencies(money)| == 1 && Lower(money[0].contract) == currency <==>
            forall i :: i in money ==> Lower(i.contract) == currency
  {
    hide Lower;
    assert money[0] in money;
    if |Currencies(money)| == 1 && Lower(money[0].contract) == currency {
      forall i | i in money ensures Lower(i.contract) == currency {
        Singleton(Currencies(money), Lower(i.contract), currency);
      }
    }
    if forall i :: i in money ==> Lower(i.contract) == currency {
      assert Currencies(money) == {currency};
    }
  }

  lemma NoTotal()
    ensures Total([]) == 0
  {
  }

  /** The monetary half prices an execution exactly when some money comes from the buyer's side, all money
      is readable and in one currency, and nothing or no more than the payment flows back: to a bid's side
      only. The price is the gross payment, never increased by what flows back. */
  lemma PriceOfExactly(items: seq<Item>, s: Side, quantity: nat, total: nat, currency: string)
    ensures PriceOf(items, s, quantity) == Ok(Priced(total, currency, quantity)) <==>
            && HasMoney(items, Other(s)) && OneReadableCurrency(items, currency)
            && total == SumBy(items, MoneyBy(Other(s)))
            && SumBy(items, MoneyBy(s)) <= total
            && (s == Offer ==> !HasMoney(items, s))
  {
    hide Filter, SumBy, Readable, Amount, Lower, Currencies, Total;
    var money := Filter(items, NotNft());
    assert forall i :: i in money <==> i in items && !IsNft(i);
    if money != [] { CurrencyListed(money, currency); }
    FilterTwice(items, s);
    FilterTwice(items, Other(s));
    PaidListed(items, s);
    PaidListed(items, Other(s));
    assert !HasMoney(items, s) ==> SumBy(items, MoneyBy(s)) == 0 by { NoTotal(); }
    assert forall i :: i in money ==> i.side == s || i.side == Other(s);
    assert SumBy(items, MoneyBy(Other(s))) >= 0 by { TotalIsNat(Filter(items, PaidFrom(Other(s)))); }
  }

  /** An execution is priced exactly when a sold side is resolved, its quantities are positive, every item
      type is supported and the money qualifies; the quantity is the number of units sold. */
  lemma PricedExactly(items: seq<Item>, total: nat, currency: string, quantity: nat)
    ensures SummarizePayment(items) == Ok(Priced(total, currency, quantity)) <==>
            && ResolveNftSide(items).Ok? && ResolveNftSide(items).value.Some?
            && var s := ResolveNftSide(items).value.value;
               && SoldPositive(items, s) && quantity == SumBy(items, UnitsBy(Some(s)))
               && (forall i :: i in items ==> Supported(i))
               && PriceOf(items, s, quantity) == Ok(Priced(total, currency, quantity))
  {
    hide Filter, SumBy, ResolveNftSide, Amount, Readable, PriceOf, Total, Units, UnitsBy;
    var r := ResolveNftSide(items);
    if r.Ok? && r.value.Some? {
      var s := r.value.value;
      var nfts := Filter(items, Sold(r.value));
      assert forall i :: i in nfts <==> i in items && IsNft(i) && i.side == s;
      assert All(nfts, Positive) <==> SoldPositive(items, s);
      assert Total(nfts) == SumBy(items, UnitsBy(Some(s))) by {
        QuantityIsLastOffset(items, r.value);
        OffsetIsSum(items, r.value, |items|);
        assert items[..|items|] == items;
      }
      TotalIsNat(nfts);
      PriceQuantity(items, s, Total(nfts));
    }
  }

  lemma PriceQuantity(items: seq<Item>, s: Side, quantity: nat)
    ensures PriceOf(items, s, quantity).Ok? ==> PriceOf(items, s, quantity).value.nftQuantity == quantity
  {
    hide Filter, SumBy, Amount, Readable, Total, Currencies;
  }

  predicate SomeMoney(items: seq<Item>) { exists i :: i in items && !IsNft(i) }

  predicate OneCurrencyOnly(items: seq<Item>) {
    forall i, j :: i in items && j in items && !IsNft(i) && !IsNft(j) ==> Lower(i.contract) == Lower(j.contract)
  }

  lemma CurrenciesListed(items: seq<Item>)
    ensures var money := Filter(items, NotNft());
            && (money != [] <==> SomeMoney(items))
            && (money != [] ==> (|Currencies(money)| == 1 <==> OneCurrencyOnly(items)))
  {
    hide Filter, Lower, Currencies;
    var money := Filter(items, NotNft());
    assert forall i :: i in money <==> i in items && !IsNft(i);
    if money != [] {
      assert money[0] in money;
      CurrencyListed(money, Lower(money[0].contract));
    }
  }

  /** Why the money of an execution excludes it from pricing. */
  lemma PriceExclusions(items: seq<Item>, s: Side, quantity: nat)
    requires PriceOf(items, s, quantity).Ok? && PriceOf(items, s, quantity).value.Excluded?
    ensures var e := PriceOf(items, s, quantity).value.exclusion;
            && (e.NoPayment? <==> !SomeMoney(items) || (OneCurrencyOnly(items) && !HasMoney(items, Other(s))))
            && (e.MixedPayment? <==> SomeMoney(items) && (!OneCurrencyOnly(items) || HasMoney(items, Other(s))))
            && (e.MixedPayment? && OneCurrencyOnly(items) ==>
                  HasMoney(items, s) && (s == Offer || SumBy(items, MoneyBy(s)) > SumBy(items, MoneyBy(Other(s)))))
  {
    hide Filter, SumBy, Readable, Amount, Lower, Currencies, Total;
    CurrenciesListed(items);
    FilterTwice(items, s);
    FilterTwice(items, Other(s));
    PaidListed(items, s);
    PaidListed(items, Other(s));
  }

  /** Why an execution is excluded before its money is looked at, and the quantity reported either way. */
  lemma ExclusionsExactly(items: seq<Item>)
    requires SummarizePayment(items).Ok? && SummarizePayment(items).value.Excluded?
    ensures ResolveNftSide(items).Ok?
    ensures var e, side := SummarizePayment(items).value.exclusion, ResolveNftSide(items).value;
            && (e.UnsupportedItems? <==>
                (exists i :: i in items && !Supported(i)) || (forall i :: i in items ==> !IsNft(i)))
            && (e.Swap? <==> All(items, Supported) && side.None? && exists i :: i in items && IsNft(i))
            && (e.NoPayment? || e.MixedPayment? ==> side.Some?)
            && SummarizePayment(items).value.nftQuantity == SumBy(items, UnitsBy(side))
  {
    hide Filter, SumBy, ResolveNftSide, Amount, Readable, PriceOf, Total, Units, UnitsBy;
    var side := ResolveNftSide(items).value;
    var nfts := Filter(items, Sold(side));
    assert forall i :: i in nfts <==> i in items && Sold(side)(i);
    if nfts != [] { assert nfts[0] in nfts; }
    QuantityIsLastOffset(items, side);
    OffsetIsSum(items, side, |items|);
    assert items[..|items|] == items;
    TotalIsNat(nfts);
    if side.Some? {
      var k := ResolvedHasNft(items, side.value);
      assert items[k] in items;
      PriceQuantity(items, side.value, Total(nfts));
      PriceKinds(items, side.value, Total(nfts));
    }
  }

  lemma PriceKinds(items: seq<Item>, s: Side, quantity: nat)
    ensures PriceOf(items, s, quantity).Ok? && PriceOf(items, s, quantity).value.Excluded? ==>
              PriceOf(items, s, quantity).value.exclusion in {NoPayment, MixedPayment}
  {
    hide Filter, SumBy, Readable, Amount, Lower, Currencies, Total;
  }

  /** The money makes the summary throw exactly when it is in one currency, some comes from the buyer's side,
      and an amount that has to be added up is unreadable: a payment, or in a bid also a return. */
  lemma PriceThrows(items: seq<Item>, s: Side, quantity: nat)
    ensures PriceOf(items, s, quantity) == Thrown <==>
            && OneCurrencyOnly(items) && HasMoney(items, Other(s))
            && exists i :: i in items && !IsNft(i) && !Readable(i) && (i.side == Other(s) || s == Consideration)
  {
    hide Filter, SumBy, Readable, Amount, Lower, Currencies, Total;
    CurrenciesListed(items);
    FilterTwice(items, s);
    FilterTwice(items, Other(s));
    PaidListed(items, s);
    PaidListed(items, Other(s));
  }

  /** A summary throws exactly when resolving the sold side throws, a counted NFT quantity is not positive,
      or all items are supported and the money throws. */
  lemma SummaryThrows(items: seq<Item>)
    ensures SummarizePayment(items) == Thrown <==>
            || ResolveNftSide(items) == Thrown
            || (exists i :: i in items && Sold(ResolveNftSide(items).value)(i) && !Positive(i))
            || (&& ResolveNftSide(items).value.Some? && (forall i :: i in items ==> Supported(i))
                && PriceOf(items, ResolveNftSide(items).value.value, 0) == Thrown)
  {
    hide Filter, ResolveNftSide, Positive, PriceOf, Total, Sold;
    var r := ResolveNftSide(items);
    if r.Ok? {
      var nfts := Filter(items, Sold(r.value));
      assert forall i :: i in nfts <==> i in items && Sold(r.value)(i);
      TotalIsNat(nfts);
      if r.value.Some? {
        PriceThrows(items, r.value.value, Total(nfts));
        PriceThrows(items, r.value.value, 0);
      }
    }
  }

  /** Preparing an execution succeeds exactly when its side resolves, its payment can be summarized, and every
      item stands at its own index, with a readable identifier and amount, and a positive amount if it counts
      as sold. Each item then carries the number of sold units before it. */
  lemma PrepareExactly(items: seq<Item>)
    ensures PrepareExecution(items).Ok? <==>
            && ResolveNftSide(items).Ok? && SummarizePayment(items).Ok?
            && forall k | 0 <= k < |items| ::
                 && items[k].index == k
                 && UnsignedAmount(items[k].identifier).Ok? && UnsignedAmount(items[k].amount).Ok?
                 && (Sold(ResolveNftSide(items).value)(items[k]) ==> UnsignedAmount(items[k].amount).value > 0)
    ensures PrepareExecution(items).Ok? ==>
              && ResolveNftSide(items).Ok?
              && var p, side := PrepareExecution(items).value, ResolveNftSide(items).value;
              && Ok(p.payment) == SummarizePayment(items) && |p.items| == |items|
              && forall k | 0 <= k < |items| ::
                   p.items[k].item == items[k] && p.items[k].unitOffset == SumBy(items[..k], UnitsBy(side))
  {
    hide Filter, SumBy, UnsignedAmount, UnitOffset, Sold, UnitsBy, SummarizePayment, ResolveNftSide;
    if ResolveNftSide(items).Ok? {
      var side := ResolveNftSide(items).value;
      assert forall k | 0 <= k < |items| :: ItemAccepted(items, side, k) <==>
               && items[k].index == k
               && UnsignedAmount(items[k].identifier).Ok? && UnsignedAmount(items[k].amount).Ok?
               && (Sold(side)(items[k]) ==> UnsignedAmount(items[k].amount).value > 0);
      hide ItemAccepted;
      forall k | 0 <= k < |items| ensures UnitOffset(items, side, k) == SumBy(items[..k], UnitsBy(side)) {
        OffsetIsSum(items, side, k);
      }
    }
  }
}

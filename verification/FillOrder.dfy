/** Exactly when the order of an execution's items matters to the sold side. */
module FillOrder {
  import opened Common
  import opened Sequences
  import opened Fills
  import D = Decimal

  function Readables(): Item -> bool { (i: Item) => Valid(i) }

  /** The legs before the first unreadable one. */
  function Leading(items: seq<Item>): (r: seq<Item>)
    ensures AllValid(r)
  {
    if items == [] || !Valid(items[0]) then [] else [items[0]] + Leading(items[1..])
  }

  // ---------------------------------------------------------------- striking legs in some order

  /** Striking throws exactly when a leg is unreadable and every leg before the first such one is found. */
  lemma {:induction false} StrikeThrows(offered: seq<Item>, bag: multiset<string>)
    ensures Strike(offered, bag) == Thrown <==> !AllValid(offered) && multiset(Keys(Leading(offered))) <= bag
  {
    hide Key, Valid, IdentityOf, MapSeq, KeyText;
    if offered == [] {
    } else {
      var x, rest := offered[0], offered[1..];
      ValidHasKey(x);
      AllValidCons(offered);
      if Valid(x) {
        StrikeThrowsStep(x, rest, bag);
        StrikeThrows(rest, bag - multiset{KeyText(x)});
        assert Leading(offered) == [x] + Leading(rest);
      } else {
        NoKeys();
      }
    }
  }

  lemma NoKeys()
    ensures Keys([]) == []
  {
  }

  lemma StrikeThrowsStep(x: Item, rest: seq<Item>, bag: multiset<string>)
    requires Valid(x)
    ensures Key(x) == Ok(KeyText(x))
    ensures KeyText(x) in bag ==>
              (multiset(Keys([x] + Leading(rest))) <= bag <==>
               multiset(Keys(Leading(rest))) <= bag - multiset{KeyText(x)})
    ensures KeyText(x) !in bag ==> !(multiset(Keys([x] + Leading(rest))) <= bag)
  {
    ValidHasKey(x);
    KeyTextIs(x);
    hide Key, Valid, IdentityOf, MapSeq, KeyText, Leading;
    var lead := [x] + Leading(rest);
    assert lead[1..] == Leading(rest);
    KeysCons(lead);
    if KeyText(x) in bag {
      SubCons(multiset(Keys(Leading(rest))), bag, KeyText(x));
    } else {
      assert KeyText(x) in multiset(Keys(lead));
    }
  }

  lemma KeyTextIs(x: Item)
    ensures Key(x).Ok? ==> Key(x) == Ok(KeyText(x))
  {
    hide IdentityOf;
  }

  /** Readable legs that do not fit, struck first, answer no whatever follows. */
  lemma {:induction false} ReadableFirst(a: seq<Item>, b: seq<Item>, bag: multiset<string>)
    requires AllValid(a) && !(multiset(Keys(a)) <= bag)
    ensures Strike(a + b, bag) == Ok(false)
  {
    hide Key, Valid, IdentityOf, MapSeq, KeyText;
    if a == [] {
      NoKeys();
    } else {
      var x, rest := a[0], a[1..];
      assert Valid(x);
      assert AllValid(rest) by { AllValidCons(a); }
      ValidHasKey(x);
      KeyTextIs(x);
      KeysCons(a);
      assert (a + b)[0] == x && (a + b)[1..] == rest + b;
      if KeyText(x) in bag {
        SubCons(multiset(Keys(rest)), bag, KeyText(x));
        ReadableFirst(rest, b, bag - multiset{KeyText(x)});
      }
    }
  }

  /** When all readable legs fit, the legs before an unreadable one fit in every order. */
  lemma {:induction false} LeadingFits(items: seq<Item>)
    ensures multiset(Keys(Leading(items))) <= multiset(Keys(Filter(items, Readables())))
  {
    hide Key, Valid, IdentityOf, MapSeq, KeyText;
    if items == [] || !Valid(items[0]) {
      NoKeys();
    } else {
      var x, rest := items[0], items[1..];
      LeadingFits(rest);
      assert items == [x] + rest;
      FilterConcat([x], rest, Readables());
      FilterAll([x], Readables());
      KeysOfCons(x, Leading(rest));
      KeysOfCons(x, Filter(rest, Readables()));
    }
  }

  lemma KeysOfCons(x: Item, rest: seq<Item>)
    ensures multiset(Keys([x] + rest)) == multiset{KeyText(x)} + multiset(Keys(rest))
  {
    hide KeyText, MapSeq;
    assert ([x] + rest)[1..] == rest;
    KeysCons([x] + rest);
  }

  // ---------------------------------------------------------------- permuting the legs

  lemma LegsPermute(a: seq<Item>, b: seq<Item>)
    requires multiset(a) == multiset(b)
    ensures multiset(Keys(a)) == multiset(Keys(b)) && AllValid(a) == AllValid(b)
    ensures multiset(Keys(Filter(a, Readables()))) == multiset(Keys(Filter(b, Readables())))
  {
    hide Filter, KeyText, MapSeq, Valid;
    MapPermutes(a, b, KeyText);
    FilterPermutes(a, b, Readables());
    MapPermutes(Filter(a, Readables()), Filter(b, Readables()), KeyText);
    PermutesLength(a, b);
    assert AllValid(a) <==> forall i :: i in a ==> Valid(i);
    assert AllValid(b) <==> forall i :: i in b ==> Valid(i);
  }

  /** The legs are compared, the considered ones are readable, an offered one is not, and the readable
      offered ones do not all find a partner. */
  predicate Sensitive(o: seq<Item>, c: seq<Item>) {
    && Comparable(o, c) && AllValid(c) && !AllValid(o)
    && !(multiset(Keys(Filter(o, Readables()))) <= multiset(Keys(c)))
  }

  lemma ComparisonPermutes(o: seq<Item>, c: seq<Item>, p: seq<Item>, d: seq<Item>)
    requires multiset(o) == multiset(p) && multiset(c) == multiset(d)
    ensures Sensitive(o, c) == Sensitive(p, d)
    ensures !Sensitive(o, c) ==> HaveSame(o, c) == HaveSame(p, d)
  {
    hide Filter, Comparable, AllValid, Keys, Strike, Leading;
    LegsPermute(o, p);
    LegsPermute(c, d);
    ComparablePermutes(o, c, p, d);
    if !Sensitive(o, c) && Comparable(o, c) && AllValid(c) {
      if AllValid(o) {
        HaveSamePermutes(o, c, p, d);
      } else {
        StrikeThrows(o, multiset(Keys(c)));
        StrikeThrows(p, multiset(Keys(d)));
        LeadingFits(o);
        LeadingFits(p);
      }
    }
  }

  // ---------------------------------------------------------------- the sold side

  /** What a caller can evaluate to know whether the order of the items matters. */
  predicate OrderSensitive(items: seq<Item>) {
    Sensitive(Filter(items, NftOn(Offer)), Filter(items, NftOn(Consideration)))
  }

  /** Unless it is sensitive, the sold side is the same in every order of the items. */
  lemma ResolvePermutes(a: seq<Item>, b: seq<Item>)
    requires multiset(a) == multiset(b)
    ensures OrderSensitive(a) == OrderSensitive(b)
    ensures !OrderSensitive(a) ==> ResolveNftSide(a) == ResolveNftSide(b)
  {
    hide Filter, HaveSame, NftOn, Sensitive;
    PermutesLength(a, b);
    FilterPermutes(a, b, NftOn(Offer));
    FilterPermutes(a, b, NftOn(Consideration));
    PermutesLength(Filter(a, NftOn(Offer)), Filter(b, NftOn(Offer)));
    PermutesLength(Filter(a, NftOn(Consideration)), Filter(b, NftOn(Consideration)));
    ComparisonPermutes(Filter(a, NftOn(Offer)), Filter(a, NftOn(Consideration)),
                       Filter(b, NftOn(Offer)), Filter(b, NftOn(Consideration)));
    assert PaymentSides(a) == PaymentSides(b);
  }

  /** With readable legs nothing is sensitive and nothing throws. */
  lemma ReadableInsensitive(items: seq<Item>)
    requires NftsValid(items)
    ensures !OrderSensitive(items) && !SwapSensitive(items) && ResolveNftSide(items).Ok?
  {
    hide Filter, HaveSame, AllValid, Comparable, Keys, PaymentSides;
    FilteredValid(items, Offer);
    FilteredValid(items, Consideration);
    HaveSameExact(Filter(items, NftOn(Offer)), Filter(items, NftOn(Consideration)));
  }

  function OfferedIf(readable: bool): Item -> bool { (i: Item) => NftOn(Offer)(i) && Valid(i) == readable }

  /** Moving some offered legs to the front keeps every leg and puts those in front among the offered ones. */
  lemma Fronted(items: seq<Item>, readable: bool)
    ensures var p, a := Sorted(items, OfferedIf(readable)), Filter(items, OfferedIf(readable));
            && multiset(p) == multiset(items)
            && a <= Filter(p, NftOn(Offer))
            && (forall i :: i in Filter(p, NftOn(Offer))[|a|..] ==> Valid(i) != readable)
  {
    hide Filter, Valid;
    var a, b := Filter(items, OfferedIf(readable)), Filter(items, Not(OfferedIf(readable)));
    SortedPermutes(items, OfferedIf(readable));
    FilterConcat(a, b, NftOn(Offer));
    FilterAll(a, NftOn(Offer));
    assert Filter(a + b, NftOn(Offer))[|a|..] == Filter(b, NftOn(Offer));
  }

  lemma ResolveBy(items: seq<Item>)
    requires var o, c := Filter(items, NftOn(Offer)), Filter(items, NftOn(Consideration)); o != [] && c != []
    ensures var r := HaveSame(Filter(items, NftOn(Offer)), Filter(items, NftOn(Consideration)));
            && (r == Thrown ==> ResolveNftSide(items) == Thrown)
            && (r == Ok(false) ==> ResolveNftSide(items) == Ok(None))
  {
    hide Filter, HaveSame, NftOn, PaymentSides;
  }

  lemma SensitiveNonempty(o: seq<Item>, c: seq<Item>)
    requires Sensitive(o, c)
    ensures o != [] && c != [] && HaveSame(o, c) == Strike(o, multiset(Keys(c)))
  {
    hide Keys, Strike, Valid, Filter;
  }

  lemma ThreeAnswers(r: Result<bool>)
    ensures r == Thrown || r == Ok(false) || r == Ok(true)
  {
    match r
    case Thrown =>
    case Ok(answer) => if answer { assert r == Ok(true); } else { assert r == Ok(false); }
  }

  /** Resolving throws exactly when both sides list as many NFTs, none by criteria, and either a considered
      one is unreadable or an offered one is and every one before it finds a partner. */
  lemma ResolveThrows(items: seq<Item>)
    ensures ResolveNftSide(items) == Thrown <==>
            var o, c := Filter(items, NftOn(Offer)), Filter(items, NftOn(Consideration));
            && Comparable(o, c)
            && (!AllValid(c) || (!AllValid(o) && multiset(Keys(Leading(o))) <= multiset(Keys(c))))
  {
    hide Filter, Strike, Comparable, Keys, Leading, NftOn, PaymentSides, Valid;
    var o, c := Filter(items, NftOn(Offer)), Filter(items, NftOn(Consideration));
    StrikeThrows(o, multiset(Keys(c)));
    if Comparable(o, c) { ComparableSize(o, c); }
  }

  /** Sensitive items never resolve a side. */
  lemma SensitiveUnresolved(items: seq<Item>)
    requires OrderSensitive(items)
    ensures ResolveNftSide(items) == Thrown || ResolveNftSide(items) == Ok(None)
  {
    hide Filter, Valid, HaveSame, Strike, Comparable, Keys, AllValid;
    var o, c := Filter(items, NftOn(Offer)), Filter(items, NftOn(Consideration));
    SensitiveNonempty(o, c);
    HaveSameExact(o, c);
    ThreeAnswers(HaveSame(o, c));
    ResolveBy(items);
  }

  /** With the readable offered legs in front the answer is that no side was sold. */
  lemma ReadableInFront(items: seq<Item>)
    requires OrderSensitive(items)
    ensures ResolveNftSide(Sorted(items, OfferedIf(true))) == Ok(None)
  {
    hide Filter, Valid, HaveSame, Strike, Comparable, Keys, AllValid, Leading;
    var p, a := Sorted(items, OfferedIf(true)), Filter(items, OfferedIf(true));
    Fronted(items, true);
    ResolvePermutes(items, p);
    var o, c := Filter(p, NftOn(Offer)), Filter(p, NftOn(Consideration));
    SensitiveNonempty(o, c);
    var b := o[|a|..];
    assert o == a + b;
    FilterConcat(a, b, Readables());
    FilterAll(a, Readables());
    FilterNone(b, Readables());
    assert Filter(o, Readables()) == a;
    ValidParts(a);
    ReadableFirst(a, b, multiset(Keys(c)));
    ResolveBy(p);
  }

  lemma ValidParts(a: seq<Item>)
    requires forall i :: i in a ==> Valid(i)
    ensures AllValid(a)
  {
    hide Valid;
  }

  /** With an unreadable offered leg in front the comparison throws. */
  lemma UnreadableInFront(items: seq<Item>)
    requires OrderSensitive(items)
    ensures ResolveNftSide(Sorted(items, OfferedIf(false))) == Thrown
  {
    hide Filter, Valid, HaveSame, Strike, Comparable, Keys;
    var p, a := Sorted(items, OfferedIf(false)), Filter(items, OfferedIf(false));
    Fronted(items, false);
    ResolvePermutes(items, p);
    var o, c := Filter(p, NftOn(Offer)), Filter(p, NftOn(Consideration));
    SensitiveNonempty(o, c);
    UnreadableListed(items);
    assert o[0] == a[0] && a[0] in a;
    assert Leading(o) == [];
    NoKeys();
    StrikeThrows(o, multiset(Keys(c)));
    ResolveBy(p);
  }

  lemma UnreadableListed(items: seq<Item>)
    requires !AllValid(Filter(items, NftOn(Offer)))
    ensures Filter(items, OfferedIf(false)) != []
  {
    hide Filter, Valid;
    var o := Filter(items, NftOn(Offer));
    var k :| 0 <= k < |o| && !Valid(o[k]);
    assert o[k] in o;
    assert o[k] in Filter(items, OfferedIf(false));
  }

  /** Some order of the items resolves differently exactly when the items are sensitive. */
  lemma OrderMattersExactly(items: seq<Item>)
    ensures (exists p :: multiset(p) == multiset(items) && ResolveNftSide(p) != ResolveNftSide(items)) <==>
            OrderSensitive(items)
  {
    hide *;
    if OrderSensitive(items) {
      ReadableInFront(items);
      UnreadableInFront(items);
      SortedPermutes(items, OfferedIf(true));
      SortedPermutes(items, OfferedIf(false));
    } else {
      forall p | multiset(p) == multiset(items) ensures ResolveNftSide(p) == ResolveNftSide(items) {
        ResolvePermutes(items, p);
      }
    }
  }

  // ---------------------------------------------------------------- swapping the sides

  function Swapped(r: Result<Option<Side>>): Result<Option<Side>> {
    match r
    case Ok(Some(s)) => Ok(Some(Other(s)))
    case _ => r
  }

  lemma {:induction false} SwapStrike(offered: seq<Item>, bag: multiset<string>)
    ensures Strike(SwapSides(offered), bag) == Strike(offered, bag)
  {
    if offered == [] {
    } else {
      SwapKey(offered[0]);
      hide Key, MapSeq;
      var w := SwapSides(offered);
      assert w[0] == SwapItem(offered[0]) && w[1..] == SwapSides(offered[1..]);
      if Key(offered[0]).Ok? { SwapStrike(offered[1..], bag - multiset{Key(offered[0]).value}); }
    }
  }

  lemma SwapKey(i: Item)
    ensures Key(SwapItem(i)) == Key(i) && KeyText(SwapItem(i)) == KeyText(i)
  {
    hide UnsignedAmount, Lower, Render;
  }

  lemma SwapKeys(items: seq<Item>)
    ensures Keys(SwapSides(items)) == Keys(items)
  {
    forall i | 0 <= i < |items| ensures KeyText(SwapItem(items[i])) == KeyText(items[i]) { SwapKey(items[i]); }
    hide KeyText, MapSeq;
  }

  lemma SwapHaveSame(o: seq<Item>, c: seq<Item>)
    ensures HaveSame(SwapSides(o), SwapSides(c)) == HaveSame(o, c)
  {
    hide Comparable, AllValid, Strike, Keys, SwapSides;
    SwapIdentities(c);
    SwapComparable(o, c);
    SwapKeys(c);
    SwapStrike(o, multiset(Keys(c)));
  }

  /** One list is readable, the other is not, and the legs before its first unreadable one do not all find
      a partner. */
  predicate Lopsided(unreadable: seq<Item>, readable: seq<Item>) {
    && AllValid(readable) && !AllValid(unreadable)
    && !(multiset(Keys(Leading(unreadable))) <= multiset(Keys(readable)))
  }

  predicate SwapSensitive(items: seq<Item>) {
    var o, c := Filter(items, NftOn(Offer)), Filter(items, NftOn(Consideration));
    Comparable(o, c) && (Lopsided(o, c) || Lopsided(c, o))
  }

  /** Comparing in the other direction gives the same answer exactly when neither list is lopsided. */
  lemma ReverseComparison(o: seq<Item>, c: seq<Item>)
    ensures HaveSame(o, c) == HaveSame(c, o) <==> !(Comparable(o, c) && (Lopsided(o, c) || Lopsided(c, o)))
    ensures HaveSame(o, c) != HaveSame(c, o) ==> {HaveSame(o, c), HaveSame(c, o)} == {Thrown, Ok(false)}
  {
    hide Comparable, AllValid, Strike, Keys, Leading;
    ComparableSymmetric(o, c);
    ThreeAnswers(HaveSame(o, c));
    ThreeAnswers(HaveSame(c, o));
    HaveSameExact(o, c);
    HaveSameExact(c, o);
    StrikeThrows(o, multiset(Keys(c)));
    StrikeThrows(c, multiset(Keys(o)));
  }

  /** Swapping the two sides of every item swaps the resolved side exactly when the items are not sensitive
      to it. */
  lemma ResolveSwaps(items: seq<Item>)
    ensures ResolveNftSide(SwapSides(items)) == Swapped(ResolveNftSide(items)) <==> !SwapSensitive(items)
  {
    hide Filter, HaveSame, NftOn, PaymentSides, SwapSides, Comparable, Lopsided;
    var w := SwapSides(items);
    var o, c := Filter(items, NftOn(Offer)), Filter(items, NftOn(Consideration));
    SwapFilter(items, Offer);
    SwapFilter(items, Consideration);
    SwapHaveSame(c, o);
    ReverseComparison(o, c);
    ThreeAnswers(HaveSame(o, c));
    ThreeAnswers(HaveSame(c, o));
    if o == [] || c == [] { EmptyIncomparable(o, c); }
    SwapsSize(o);
    SwapsSize(c);
    SidesCardinality(PaymentSides(items));
    SidesCardinality(PaymentSides(w));
    SwapPaymentSides(items, Offer);
    SwapPaymentSides(items, Consideration);
  }

  lemma SwapsSize(items: seq<Item>)
    ensures SwapSides(items) == [] <==> items == []
  {
    hide SwapSides;
    assert |SwapSides(items)| == |items|;
  }

  /** With an empty list there is nothing to be lopsided about. */
  lemma EmptyIncomparable(o: seq<Item>, c: seq<Item>)
    requires o == [] || c == []
    ensures !(Comparable(o, c) && (Lopsided(o, c) || Lopsided(c, o)))
  {
    hide Valid, Keys;
  }

  // ---------------------------------------------------------------- an example

  const MISSED := Item(0, Offer, 2, "", "1", "1", None)
  const UNREADABLE := Item(1, Offer, 2, "", "x", "1", None)
  const WANTED := Item(2, Consideration, 2, "", "2", "1", None)

  lemma ExampleKeys()
    ensures Valid(MISSED) && !Valid(UNREADABLE) && Valid(WANTED) && KeyText(MISSED) != KeyText(WANTED)
  {
    ReadUnit("1", 1);
    ReadUnit("2", 2);
    hide Render, D.Val, Lower;
    assert !D.IsDigit(UNREADABLE.identifier[0]);
    assert IdentityOf(MISSED).value.id == 1 && IdentityOf(WANTED).value.id == 2;
    KeysDiffer(MISSED, WANTED);
  }

  lemma PairedLegs(x: Item, y: Item, c: seq<Item>)
    requires NftOn(Offer)(x) && NftOn(Offer)(y) && forall i :: i in c ==> NftOn(Consideration)(i)
    ensures Filter([x] + [y] + c, NftOn(Offer)) == [x] + [y]
    ensures Filter([x] + [y] + c, NftOn(Consideration)) == c
  {
    hide Filter, IsNft;
    var o := [x] + [y];
    FilterConcat(o, c, NftOn(Offer));
    FilterConcat(o, c, NftOn(Consideration));
    FilterAll(o, NftOn(Offer));
    FilterNone(c, NftOn(Offer));
    FilterNone(o, NftOn(Consideration));
    FilterAll(c, NftOn(Consideration));
  }

  lemma PairSensitive(x: Item, y: Item, c: seq<Item>)
    requires Comparable([x] + [y], c) && AllValid(c) && Valid(x) && !Valid(y)
    requires KeyText(x) !in Keys(c)
    ensures Sensitive([x] + [y], c)
  {
    hide Filter, Valid, KeyText, Comparable;
    FilterConcat([x], [y], Readables());
    FilterAll([x], Readables());
    FilterNone([y], Readables());
    assert Keys([x]) == [KeyText(x)];
    assert KeyText(x) in multiset(Keys([x])) && KeyText(x) !in multiset(Keys(c));
    assert !Valid(([x] + [y])[1]);
  }

  lemma MoveFront(a: seq<Item>, x: Item, b: seq<Item>, p: Item -> bool)
    requires p(x) && (forall i :: i in a ==> !p(i)) && (forall i :: i in b ==> !p(i))
    ensures Sorted(a + [x] + b, p) == [x] + a + b
  {
    hide Filter;
    FilterParts(a, x, b, p);
    FilterParts(a, x, b, Not(p));
    FilterNone(a, p);
    FilterAll([x], p);
    FilterNone(b, p);
    FilterAll(a, Not(p));
    FilterNone([x], Not(p));
    FilterAll(b, Not(p));
  }

  lemma FilterParts(a: seq<Item>, x: Item, b: seq<Item>, p: Item -> bool)
    ensures Filter(a + [x] + b, p) == Filter(a, p) + Filter([x], p) + Filter(b, p)
  {
    hide Filter;
    FilterConcat(a + [x], b, p);
    FilterConcat(a, [x], p);
  }

  /** A readable leg without a partner, an unreadable one, and readable legs on the other side: with the
      mismatch first the answer is that no side was sold, with the unreadable leg first it throws. */
  lemma TwoOrders(x: Item, y: Item, c: seq<Item>)
    requires NftOn(Offer)(x) && NftOn(Offer)(y) && forall i :: i in c ==> NftOn(Consideration)(i)
    requires Comparable([x] + [y], c) && AllValid(c) && Valid(x) && !Valid(y) && KeyText(x) !in Keys(c)
    ensures ResolveNftSide([x] + [y] + c) == Ok(None) && ResolveNftSide([y] + [x] + c) == Thrown
  {
    hide Valid, KeyText, Filter, ResolveNftSide, Sorted, Comparable, AllValid, Keys, Sensitive;
    var items := [x] + [y] + c;
    PairedLegs(x, y, c);
    PairSensitive(x, y, c);
    ReadableInFront(items);
    UnreadableInFront(items);
    MoveFront([], x, [y] + c, OfferedIf(true));
    MoveFront([x], y, c, OfferedIf(false));
    assert [] + [x] + ([y] + c) == items && [x] + [] + ([y] + c) == items;
  }

  lemma UnreadableExample()
    ensures ResolveNftSide([MISSED] + [UNREADABLE] + [WANTED, WANTED]) == Ok(None)
    ensures ResolveNftSide([UNREADABLE] + [MISSED] + [WANTED, WANTED]) == Thrown
  {
    ExampleKeys();
    hide Valid, KeyText, Filter, ResolveNftSide;
    var c := [WANTED, WANTED];
    assert Keys(c) == [KeyText(WANTED), KeyText(WANTED)];
    assert AllValid(c);
    TwoOrders(MISSED, UNREADABLE, c);
  }
}

/** What it means for two NFT legs to be the same, in terms of their texts. */
module FillLegs {
  import opened Common
  import opened Sequences
  import opened Fills
  import D = Decimal

  /** The item types of the protocol: 0 and 1 are money, 2 to 5 NFTs, and 4 and 5 name them by criteria. */
  lemma ItemKinds(i: Item)
    ensures IsMoney(i) <==> i.itemType in {0, 1}
    ensures IsNft(i) <==> i.itemType in {2, 3, 4, 5}
    ensures IsNft(i) ==> (IsCriteria(i) <==> i.itemType in {4, 5})
  {
  }

  // ---------------------------------------------------------------- letter case

  /** One is the other, or they are the two cases of one letter. */
  predicate SameLetter(a: char, b: char) {
    || a == b
    || ('A' <= a <= 'Z' && b as int == a as int + 32)
    || ('A' <= b <= 'Z' && a as int == b as int + 32)
  }

  predicate SameLetters(a: string, b: string) {
    |a| == |b| && forall i :: 0 <= i < |a| ==> SameLetter(a[i], b[i])
  }

  lemma LowerCharExact(a: char, b: char)
    ensures LowerChar(a) == LowerChar(b) <==> SameLetter(a, b)
  {
  }

  /** Lower-casing identifies exactly the texts that differ in letter case only. */
  lemma LowerExact(a: string, b: string)
    ensures Lower(a) == Lower(b) <==> SameLetters(a, b)
  {
    hide LowerChar, SameLetter, MapSeq;
    forall i | 0 <= i < |a| && i < |b| ensures LowerChar(a[i]) == LowerChar(b[i]) <==> SameLetter(a[i], b[i]) {
      LowerCharExact(a[i], b[i]);
    }
    assert |Lower(a)| == |a| && |Lower(b)| == |b|;
    if SameLetters(a, b) { assert Lower(a) == Lower(b); }
    if Lower(a) == Lower(b) {
      forall i | 0 <= i < |a| ensures SameLetter(a[i], b[i]) { assert Lower(a)[i] == Lower(b)[i]; }
    }
  }

  // ---------------------------------------------------------------- amounts

  /** An amount is read exactly from one to 78 digits below 2^256, as the number they denote. */
  lemma AmountExactly(text: string, n: nat)
    ensures UnsignedAmount(text) == Ok(n) <==>
            D.Digits(text) && 1 <= |text| <= 78 && D.Val(text) == n && n < UINT256_END
  {
    hide D.Val;
  }

  /** Every unsigned 256-bit amount fits in those 78 digits, so its text is read back. */
  lemma AmountRoundTrip(n: nat)
    requires n < UINT256_END
    ensures UnsignedAmount(D.ToDec(n)) == Ok(n)
  {
    hide D.ToDec, D.Val, D.Pow10;
    D.TenTo78();
    D.ShortText(n, 78);
    D.ValToDec(n);
  }

  // ---------------------------------------------------------------- one leg

  function EndText(i: Item): string { if i.endAmount.Some? then i.endAmount.value else i.amount }

  predicate Reads(text: string) { D.Digits(text) && 1 <= |text| <= 78 && D.Val(text) < UINT256_END }

  /** A leg can be compared exactly when its three amounts can be read. */
  lemma ValidExactly(i: Item)
    ensures Valid(i) <==> Reads(i.identifier) && Reads(i.amount) && Reads(EndText(i))
  {
    hide D.Val, Lower;
  }

  /** The same units: same type, same contract up to letter case, same identifier and same amounts by value. */
  predicate SameLeg(x: Item, y: Item) {
    && Valid(x) && Valid(y)
    && x.itemType == y.itemType
    && SameLetters(x.contract, y.contract)
    && Reads(x.identifier) && Reads(y.identifier) && D.Val(x.identifier) == D.Val(y.identifier)
    && Reads(x.amount) && Reads(y.amount) && D.Val(x.amount) == D.Val(y.amount)
    && Reads(EndText(x)) && Reads(EndText(y)) && D.Val(EndText(x)) == D.Val(EndText(y))
  }

  lemma SameLegExact(x: Item, y: Item)
    requires Valid(x) && Valid(y)
    ensures IdentityOf(x) == IdentityOf(y) <==> SameLeg(x, y)
  {
    ValidExactly(x);
    ValidExactly(y);
    LowerExact(x.contract, y.contract);
    hide D.Val, Lower, SameLetters;
  }

  // ---------------------------------------------------------------- the two lists

  /** The legs of the two lists can be paired one to one, each with the same units. */
  ghost predicate Matched(o: seq<Item>, c: seq<Item>, p: seq<nat>) {
    |o| == |c| && Pairing(p, |o|) && forall i :: 0 <= i < |o| ==> SameLeg(o[i], c[p[i]])
  }

  lemma MatchedIdentities(o: seq<Item>, c: seq<Item>, p: seq<nat>)
    requires Matched(o, c, p)
    ensures AllValid(o) && AllValid(c) && multiset(Identities(o)) == multiset(Identities(c))
  {
    hide IdentityOf, SameLetters, Reads;
    forall i | 0 <= i < |o| ensures Identities(o)[i] == Identities(c)[p[i]] {
      assert SameLeg(o[i], c[p[i]]);
      SameLegExact(o[i], c[p[i]]);
    }
    PairingPermutes(Identities(o), Identities(c), p);
    forall i | 0 <= i < |o| ensures Valid(o[i]) { assert SameLeg(o[i], c[p[i]]); }
    PairedValid(o, c, p);
  }

  lemma PairedValid(o: seq<Item>, c: seq<Item>, p: seq<nat>)
    requires Matched(o, c, p)
    ensures AllValid(c)
  {
    hide SameLeg, Valid;
    forall j | 0 <= j < |c| ensures Valid(c[j]) {
      var i := Onto(p, |c|, j);
      ValidPair(o[i], c[p[i]]);
    }
  }

  lemma ValidPair(x: Item, y: Item)
    requires SameLeg(x, y)
    ensures Valid(y)
  {
  }

  /** A one-to-one assignment reaches every position. */
  lemma Onto(p: seq<nat>, n: nat, j: nat) returns (i: nat)
    requires Pairing(p, n) && j < n
    ensures i < n && p[i] == j
  {
    var ids := seq(n, k => k);
    var a := seq(n, k requires 0 <= k < n => p[k]);
    assert forall k :: 0 <= k < n ==> 0 <= p[k] < n;
    assert forall k :: 0 <= k < n ==> a[k] == ids[p[k]];
    PairingPermutes(a, ids, p);
    assert ids[j] in ids;
    PermutesLength(a, ids);
    i :| 0 <= i < n && a[i] == j;
  }

  lemma MatchingExists(o: seq<Item>, c: seq<Item>) returns (p: seq<nat>)
    requires AllValid(o) && AllValid(c) && multiset(Identities(o)) == multiset(Identities(c))
    ensures Matched(o, c, p)
  {
    hide IdentityOf, SameLeg;
    p := PairingExists(Identities(o), Identities(c));
    forall i | 0 <= i < |o| ensures SameLeg(o[i], c[p[i]]) {
      assert Identities(o)[i] == Identities(c)[p[i]];
      SameLegExact(o[i], c[p[i]]);
    }
  }

  /** The comparison answers true exactly when no leg goes by criteria and the legs of the two lists can be
      paired one to one, each pair agreeing in type, in contract up to letter case, and in the values of
      identifier, amount and end amount. */
  lemma HaveSamePaired(offered: seq<Item>, considered: seq<Item>)
    ensures HaveSame(offered, considered) == Ok(true) <==>
            && (forall i :: i in offered + considered ==> i.itemType <= 3)
            && exists p :: Matched(offered, considered, p)
  {
    HaveSameExact(offered, considered);
    hide HaveSame, AllValid, Identities, Matched;
    if HaveSame(offered, considered) == Ok(true) {
      var p := MatchingExists(offered, considered);
    }
    if p :| Matched(offered, considered, p) {
      MatchedIdentities(offered, considered, p);
      MatchedSize(offered, considered, p);
    }
  }

  lemma MatchedSize(o: seq<Item>, c: seq<Item>, p: seq<nat>)
    requires Matched(o, c, p)
    ensures |o| == |c|
  {
    hide SameLeg;
  }
}

/** EIP-1559 fee selection and the exact decimal rendering of its amounts. */
module FeePolicy {
  import opened Common
  import opened Sequences
  import D = Decimal

  const BPS := 10000

  /** Bigint division, which truncates toward zero. */
  function Quot(a: int, b: int): int
    requires b > 0
  {
    if a >= 0 then a / b else -((-a) / b)
  }

  function MultiplyByBpsCeil(value: int, bps: int): int {
    var scaled := value * bps;
    Quot(scaled, BPS) + if Rem(scaled, BPS) == 0 then 0 else 1
  }

  datatype FeeConfig = FeeConfig(minPriority: int, multiplierBps: int, maxFee: int)

  predicate ValidConfig(c: FeeConfig) {
    c.minPriority > 0 && c.multiplierBps >= BPS && c.maxFee > 0 && c.maxFee >= c.minPriority
  }

  datatype Outcome = Prepared(priority: int, maxFee: int) | NoBaseFee | FeeCapTooLow(priority: int, maxFee: int)

  /** First reward of each block that has one. */
  function FirstRewards(reward: seq<seq<int>>): seq<int> {
    if reward == [] then []
    else
      var last := reward[|reward| - 1];
      FirstRewards(reward[..|reward| - 1]) + if last == [] then [] else [last[0]]
  }

  function IsPositive(): int -> bool { (x: int) => x > 0 }

  function RewardSamples(reward: Option<seq<seq<int>>>): seq<int> {
    if reward.None? then [] else Filter(FirstRewards(reward.value), IsPositive())
  }

  function Largest(xs: seq<int>): int
    requires xs != []
  {
    if |xs| == 1 then xs[0]
    else
      var m := Largest(xs[..|xs| - 1]);
      if xs[|xs| - 1] > m then xs[|xs| - 1] else m
  }

  function HistoryPriority(samples: seq<int>): Option<int> {
    if samples == [] then None else Some(Largest(samples))
  }

  function OrZero(x: Option<int>): int { if x.Some? then x.value else 0 }

  function Priority(c: FeeConfig, node: Option<int>, reward: Option<seq<seq<int>>>): int {
    Max(Max(OrZero(node), OrZero(HistoryPriority(RewardSamples(reward)))), c.minPriority)
  }

  function SelectFees(c: FeeConfig, base: Option<int>, node: Option<int>, reward: Option<seq<seq<int>>>): Outcome {
    if base.None? then NoBaseFee
    else
      var priority := Priority(c, node, reward);
      var uncapped := MultiplyByBpsCeil(base.value, c.multiplierBps) + priority;
      var maxFee := Min(uncapped, c.maxFee);
      if maxFee < base.value + priority then FeeCapTooLow(priority, maxFee) else Prepared(priority, maxFee)
  }

  // ---------------------------------------------------------------- rounding

  predicate LeastSufficient(n: int, scaled: int) { n * BPS >= scaled && (n - 1) * BPS < scaled }

  /** The multiplication rounds up to the least sufficient integer exactly when the product is not
      negative or divides evenly; below zero the truncating division makes it one too large. */
  lemma MultiplyByBpsCeilExact(value: int, bps: int)
    ensures LeastSufficient(MultiplyByBpsCeil(value, bps), value * bps) <==>
            value * bps >= 0 || (-(value * bps)) % BPS == 0
  {
    RoundUp(value * bps);
  }

  lemma RoundUp(scaled: int)
    ensures LeastSufficient(Quot(scaled, BPS) + if Rem(scaled, BPS) == 0 then 0 else 1, scaled)
            <==> scaled >= 0 || (-scaled) % BPS == 0
  {
  }

  lemma RoundsUpTooFar()
    ensures MultiplyByBpsCeil(-1, 10001) == 0 && !LeastSufficient(0, -1 * 10001) && LeastSufficient(-1, -1 * 10001)
  {
  }

  lemma HeadroomCovers(base: int, bps: int)
    requires base >= 0 && bps >= BPS
    ensures MultiplyByBpsCeil(base, bps) >= base
  {
    var scaled := base * bps;
    assert scaled == base * BPS + base * (bps - BPS);
    assert base * (bps - BPS) >= 0;
    RoundUp(scaled);
  }

  // ---------------------------------------------------------------- the chosen priority fee

  predicate Rewarded(reward: seq<seq<int>>, x: int) {
    exists i :: 0 <= i < |reward| && reward[i] != [] && reward[i][0] == x
  }

  lemma {:induction false} FirstRewardsExact(reward: seq<seq<int>>, x: int)
    ensures x in FirstRewards(reward) <==> Rewarded(reward, x)
  {
    if reward != [] {
      hide Rewarded;
      FirstRewardsExact(reward[..|reward| - 1], x);
      RewardedLast(reward, x);
    }
  }

  lemma RewardedLast(reward: seq<seq<int>>, x: int)
    requires reward != []
    ensures var n := |reward| - 1;
            Rewarded(reward, x) <==> Rewarded(reward[..n], x) || (reward[n] != [] && reward[n][0] == x)
  {
    var n := |reward| - 1;
    assert forall i :: 0 <= i < n ==> reward[..n][i] == reward[i];
  }

  lemma {:induction false} LargestIsMax(xs: seq<int>)
    requires xs != []
    ensures Largest(xs) in xs && forall x :: x in xs ==> x <= Largest(xs)
  {
    var n := |xs| - 1;
    if n > 0 {
      LargestIsMax(xs[..n]);
      assert xs == xs[..n] + [xs[n]];
    }
  }

  /** A candidate for the priority fee: the floor, the node's value, a positive first reward. */
  predicate Candidate(c: FeeConfig, node: Option<int>, reward: Option<seq<seq<int>>>, x: int) {
    || x == c.minPriority
    || (node.Some? && x == node.value)
    || (reward.Some? && x > 0 && Rewarded(reward.value, x))
  }

  /** The priority fee is the largest candidate. */
  lemma PriorityIsLargest(c: FeeConfig, node: Option<int>, reward: Option<seq<seq<int>>>)
    requires ValidConfig(c)
    ensures Candidate(c, node, reward, Priority(c, node, reward))
    ensures forall x :: Candidate(c, node, reward, x) ==> x <= Priority(c, node, reward)
  {
    hide Filter, Largest, FirstRewards, Rewarded;
    var samples := RewardSamples(reward);
    if samples != [] { LargestIsMax(samples); }
    if reward.Some? {
      forall x ensures x in samples <==> x > 0 && Rewarded(reward.value, x) {
        FirstRewardsExact(reward.value, x);
      }
    }
  }

  /** On success the fee covers base and priority fee within the cap; the fee is always the base fee with the
      least sufficient headroom plus the priority fee, or the cap if that is less; the cap is reported too low
      exactly when it cannot cover base and priority fee; and a missing base fee is reported first. */
  lemma FeesExact(c: FeeConfig, base: Option<int>, node: Option<int>, reward: Option<seq<seq<int>>>)
    requires ValidConfig(c) && (base.Some? ==> base.value >= 0)
    ensures var r, p := SelectFees(c, base, node, reward), Priority(c, node, reward);
            && (r.NoBaseFee? <==> base.None?)
            && (base.Some? ==>
                  && (r.FeeCapTooLow? <==> c.maxFee < base.value + p)
                  && r.priority == p
                  && (r.Prepared? ==> base.value + p <= r.maxFee <= c.maxFee)
                  && (forall h :: LeastSufficient(h, base.value * c.multiplierBps) ==> r.maxFee == Min(h + p, c.maxFee))
                  && (r.Prepared? && r.maxFee < c.maxFee ==>
                        LeastSufficient(r.maxFee - p, base.value * c.multiplierBps)))
  {
    hide Priority, MultiplyByBpsCeil, LeastSufficient;
    if base.Some? {
      HeadroomCovers(base.value, c.multiplierBps);
      MultiplyByBpsCeilExact(base.value, c.multiplierBps);
      NonNegativeProduct(base.value, c.multiplierBps);
      var scaled := base.value * c.multiplierBps;
      forall h | LeastSufficient(h, scaled) ensures h == MultiplyByBpsCeil(base.value, c.multiplierBps) {
        LeastUnique(h, MultiplyByBpsCeil(base.value, c.multiplierBps), scaled);
      }
    }
  }

  lemma LeastUnique(a: int, b: int, scaled: int)
    requires LeastSufficient(a, scaled) && LeastSufficient(b, scaled)
    ensures a == b
  {
  }

  lemma NonNegativeProduct(a: int, b: int)
    requires a >= 0 && b >= 0
    ensures a * b >= 0
  {
  }

  // ---------------------------------------------------------------- decimal rendering

  function Zeros(n: nat): (s: string)
    ensures |s| == n && forall i :: 0 <= i < n ==> s[i] == '0'
  {
    seq(n, _ => '0')
  }

  function PadStart(s: string, width: nat): string { if |s| >= width then s else Zeros(width - |s|) + s }

  function DropZeros(s: string): (r: string)
    ensures r <= s
    ensures r == "" || r[|r| - 1] != '0'
    ensures forall i :: |r| <= i < |s| ==> s[i] == '0'
  {
    if s != "" && s[|s| - 1] == '0' then DropZeros(s[..|s| - 1]) else s
  }

  function FormatDecimal(value: int, denominator: int): string
    requires denominator > 0
  {
    var whole, fraction := Quot(value, denominator), Rem(value, denominator);
    if fraction == 0 then D.IntText(whole)
    else
      var width := |D.ToDec(denominator)| - 1;
      D.IntText(whole) + "." + DropZeros(PadStart(D.IntText(fraction), width))
  }

  /** A decimal numeral: an optional sign, digits, and optionally a point and more digits. It denotes
      scaled / 10^places. */
  datatype Numeral = Numeral(scaled: int, places: nat)

  function ReadWhole(s: string): Option<int> {
    if s != "" && D.Digits(s) then Some(D.Val(s))
    else if |s| > 1 && s[0] == '-' && D.Digits(s[1..]) then Some(-(D.Val(s[1..]) as int))
    else None
  }

  function Point(s: string): (k: nat)
    ensures k <= |s| && (k < |s| ==> s[k] == '.')
    ensures forall j :: 0 <= j < k ==> s[j] != '.'
  {
    First(s, c => c == '.')
  }

  function ReadDecimal(s: string): Option<Numeral> {
    var k := Point(s);
    if k == |s| then
      match ReadWhole(s) case None => None case Some(n) => Some(Numeral(n, 0))
    else
      var fraction := s[k + 1..];
      if fraction == "" || !D.Digits(fraction) then None
      else match ReadWhole(s[..k])
        case None => None
        case Some(n) =>
          var shifted := n * D.Pow10(|fraction|);
          Some(Numeral(if s[0] == '-' then shifted - D.Val(fraction) else shifted + D.Val(fraction), |fraction|))
  }

  /** The text denotes value / 10^k. */
  predicate Denotes(s: string, value: int, k: nat) {
    ReadDecimal(s).Some? && ReadDecimal(s).value.scaled * D.Pow10(k) == value * D.Pow10(ReadDecimal(s).value.places)
  }

  lemma ReadIntText(n: int)
    ensures ReadWhole(D.IntText(n)) == Some(n)
    ensures '.' !in D.IntText(n) && D.IntText(n) != ""
    ensures D.IntText(n)[0] == '-' <==> n < 0
  {
    hide D.ToDec, D.Val;
    if n < 0 {
      D.ValToDec(-n);
      assert D.IntText(n)[1..] == D.ToDec(-n);
    } else {
      D.ValToDec(n);
    }
  }

  lemma {:induction false} PowText(k: nat)
    ensures |D.ToDec(D.Pow10(k))| == k + 1
  {
    if k > 0 { PowText(k - 1); }
  }

  lemma {:induction false} ZerosAppended(s: string, n: nat)
    requires D.Digits(s)
    ensures D.Digits(s + Zeros(n)) && D.Val(s + Zeros(n)) == D.Val(s) * D.Pow10(n)
  {
    hide D.Val, Zeros;
    if n == 0 {
      assert s + Zeros(0) == s;
    } else {
      ZerosAppended(s, n - 1);
      assert s + Zeros(n) == (s + Zeros(n - 1)) + ['0'];
      D.ValSnoc(s + Zeros(n - 1), '0');
      D.Assoc(D.Val(s), 10, D.Pow10(n - 1));
    }
  }

  lemma {:induction false} ZerosPrepended(s: string, n: nat)
    requires D.Digits(s)
    ensures D.Digits(Zeros(n) + s) && D.Val(Zeros(n) + s) == D.Val(s)
  {
    hide D.Val, Zeros;
    if n == 0 {
      assert Zeros(0) + s == s;
    } else {
      ZerosPrepended(s, n - 1);
      assert Zeros(n) + s == ['0'] + (Zeros(n - 1) + s);
      D.ValCons('0', Zeros(n - 1) + s);
    }
  }

  /** The rendered fraction of a number below 10^k, without its trailing zeros. */
  function FractionText(f: nat, k: nat): string { DropZeros(PadStart(D.ToDec(f), k)) }

  lemma FractionExact(f: nat, k: nat)
    requires 0 < f < D.Pow10(k)
    ensures var s := FractionText(f, k);
            D.Digits(s) && s != "" && |s| <= k && D.Val(s) * D.Pow10(k - |s|) == f
  {
    hide D.ToDec, D.Val, DropZeros, Zeros;
    assert k > 0;
    var text := D.ToDec(f);
    D.ShortText(f, k);
    D.ValToDec(f);
    ZerosPrepended(text, k - |text|);
    var padded := PadStart(text, k);
    assert padded == Zeros(k - |text|) + text;
    var s := DropZeros(padded);
    assert padded == s + Zeros(k - |s|);
    ZerosAppended(s, k - |s|);
    if s == "" { ValEmpty(); }
  }

  lemma ValEmpty()
    ensures D.Val("") == 0
  {
  }

  lemma ReadPoint(whole: string, fraction: string)
    requires '.' !in whole
    ensures Point(whole + "." + fraction) == |whole|
    ensures (whole + "." + fraction)[..|whole|] == whole && (whole + "." + fraction)[|whole| + 1..] == fraction
  {
    hide Point;
    var s := whole + "." + fraction;
    assert s[|whole|] == '.' && forall j :: 0 <= j < |whole| ==> s[j] == whole[j];
  }

  lemma ScaleUp(w: nat, v: nat, p: nat, q: nat, r: nat, f: nat)
    requires p * q == r && v * q == f
    ensures (w * p + v) * r == (w * r + f) * p
  {
    D.Assoc(w, p, r);
    D.Assoc(v, p, q);
    D.Assoc(v, q, p);
    assert (w * p + v) * r == w * p * r + v * r;
    assert (w * r + f) * p == w * r * p + f * p;
    assert v * r == v * (q * p) by { assert p * q == q * p; }
    assert w * p * r == w * r * p by { D.Assoc(w, r, p); assert p * r == r * p; }
  }

  lemma ReadParts(w: nat, fraction: string)
    requires fraction != "" && D.Digits(fraction)
    ensures ReadDecimal(D.IntText(w) + "." + fraction) ==
            Some(Numeral(w * D.Pow10(|fraction|) + D.Val(fraction), |fraction|))
  {
    hide D.ToDec, D.Val, D.IntText, Point, D.Pow10, ReadWhole;
    ReadIntText(w);
    ReadPoint(D.IntText(w), fraction);
  }

  lemma FormatFraction(value: nat, k: nat)
    requires value % D.Pow10(k) != 0
    ensures FormatDecimal(value, D.Pow10(k)) ==
            D.IntText(value / D.Pow10(k)) + "." + FractionText(value % D.Pow10(k), k)
  {
    hide D.ToDec, D.Pow10, DropZeros, PadStart;
    PowText(k);
  }

  /** A whole part w and fraction text s denote w + f / 10^k when s is f without its trailing zeros. */
  lemma PartsDenote(value: nat, w: nat, f: nat, s: string, k: nat)
    requires value == w * D.Pow10(k) + f && s != "" && D.Digits(s) && |s| <= k && D.Val(s) * D.Pow10(k - |s|) == f
    ensures Denotes(D.IntText(w) + "." + s, value, k)
  {
    hide D.Val, D.IntText, D.Pow10, ReadDecimal;
    ReadParts(w, s);
    D.PowSplit(|s|, k - |s|);
    ScaleUp(w, D.Val(s), D.Pow10(|s|), D.Pow10(k - |s|), D.Pow10(k), f);
  }

  lemma Division(a: nat, b: nat)
    requires b > 0
    ensures a == (a / b) * b + a % b
  {
  }

  lemma FormatWhole(value: int, r: int)
    requires r > 0 && (if value >= 0 then value % r == 0 else (-value) % r == 0)
    ensures FormatDecimal(value, r) == D.IntText(if value >= 0 then value / r else -((-value) / r))
  {
    hide D.ToDec, D.IntText, PadStart, DropZeros;
  }

  lemma FormatNonNegative(value: nat, k: nat)
    ensures Denotes(FormatDecimal(value, D.Pow10(k)), value, k)
  {
    hide *;
    var r := D.Pow10(k);
    Division(value, r);
    if value % r == 0 {
      WholeDenotes(value / r, k);
      FormatWhole(value, r);
    } else {
      FormatFraction(value, k);
      FractionExact(value % r, k);
      PartsDenote(value, value / r, value % r, FractionText(value % r, k), k);
    }
  }

  lemma WholeDenotes(w: int, k: nat)
    ensures Denotes(D.IntText(w), w * D.Pow10(k), k)
  {
    hide D.IntText, Point, ReadWhole;
    ReadIntText(w);
    NoPoint(D.IntText(w));
    assert D.Pow10(0) == 1;
  }

  lemma NoPoint(s: string)
    requires '.' !in s
    ensures Point(s) == |s|
  {
    hide Point;
    assert forall j :: 0 <= j < |s| ==> s[j] in s;
  }

  lemma NegativeWhole(value: int, k: nat)
    requires value < 0 && (-value) % D.Pow10(k) == 0
    ensures Denotes(FormatDecimal(value, D.Pow10(k)), value, k)
  {
    hide *;
    var r := D.Pow10(k);
    Division(-value, r);
    NegateProduct((-value) / r, r);
    FormatWhole(value, r);
    WholeDenotes(-((-value) / r), k);
  }

  lemma NegateProduct(a: int, b: int)
    ensures (-a) * b == -(a * b)
  {
  }

  /** A negative remainder puts a sign after the point, where no numeral has one. */
  lemma NegativeFraction(value: int, k: nat)
    requires value < 0 && (-value) % D.Pow10(k) != 0
    ensures ReadDecimal(FormatDecimal(value, D.Pow10(k))) == None
  {
    hide D.ToDec, D.Val, DropZeros, Zeros, Point;
    var r := D.Pow10(k);
    var w, f := Quot(value, r), Rem(value, r);
    ReadIntText(w);
    ReadIntText(f);
    var width := |D.ToDec(r)| - 1;
    var padded := PadStart(D.IntText(f), width);
    var at := |padded| - |D.IntText(f)|;
    assert padded[at] == '-';
    var s := DropZeros(padded);
    assert at < |s| && s[at] == '-';
    assert !D.Digits(s);
    ReadPoint(D.IntText(w), s);
  }

  /** For the power-of-ten denominators in use, the text reads back to the exact value precisely when
      the value is not negative or has no fraction. */
  lemma FormatDecimalExact(value: int, k: nat)
    ensures Denotes(FormatDecimal(value, D.Pow10(k)), value, k) <==> value >= 0 || (-value) % D.Pow10(k) == 0
  {
    hide FormatDecimal, ReadDecimal;
    if value >= 0 {
      FormatNonNegative(value, k);
    } else if (-value) % D.Pow10(k) == 0 {
      NegativeWhole(value, k);
    } else {
      NegativeFraction(value, k);
    }
  }

  /** The two denominators in use: wei per gwei and basis points per unit. */
  lemma RenderedAmounts(value: nat)
    ensures Denotes(FormatDecimal(value, 1_000_000_000), value, 9)
    ensures Denotes(FormatDecimal(value, BPS), value, 4)
  {
    hide FormatDecimal, Denotes;
    assert D.Pow10(4) == BPS;
    assert D.Pow10(9) == 100_000 * D.Pow10(4);
    FormatNonNegative(value, 9);
    FormatNonNegative(value, 4);
  }
}

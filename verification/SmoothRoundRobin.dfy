/** Smooth weighted round-robin on plain integer credits and weights: every round each candidate earns its
    weight, the first richest one is chosen and pays the whole pool weight. */
module SmoothRoundRobin {

  function Sum(xs: seq<int>): int {
    if xs == [] then 0 else Sum(xs[..|xs| - 1]) + xs[|xs| - 1]
  }

  function Plus(a: seq<int>, b: seq<int>): (r: seq<int>)
    requires |a| == |b|
    ensures |r| == |a| && forall i :: 0 <= i < |a| ==> r[i] == a[i] + b[i]
  {
    seq(|a|, i requires 0 <= i < |a| => a[i] + b[i])
  }

  /** The first greatest entry. */
  function ArgMax(xs: seq<int>): (i: nat)
    requires xs != []
    ensures i < |xs|
    ensures forall j :: 0 <= j < |xs| ==> xs[j] <= xs[i]
    ensures forall j :: 0 <= j < i ==> xs[j] < xs[i]
  {
    if |xs| == 1 then 0
    else
      var rest := xs[..|xs| - 1];
      var i := ArgMax(rest);
      assert forall j :: 0 <= j < |xs| - 1 ==> xs[j] == rest[j];
      if xs[|xs| - 1] > xs[i] then |xs| - 1 else i
  }

  function Pick(cs: seq<int>, ws: seq<int>): (i: nat)
    requires |cs| == |ws| > 0
    ensures i < |cs|
  {
    ArgMax(Plus(cs, ws))
  }

  function Next(cs: seq<int>, ws: seq<int>): (r: seq<int>)
    requires |cs| == |ws| > 0
    ensures |r| == |cs|
    ensures forall j :: 0 <= j < |cs| ==> r[j] == cs[j] + ws[j] - (if j == Pick(cs, ws) then Sum(ws) else 0)
  {
    var s, i := Plus(cs, ws), Pick(cs, ws);
    s[i := s[i] - Sum(ws)]
  }

  // ---------------------------------------------------------------- sums

  ghost predicate Positive(ws: seq<int>) { forall i :: 0 <= i < |ws| ==> ws[i] > 0 }

  lemma SumNone(xs: seq<int>)
    ensures Sum(xs[..0]) == 0
  {
  }

  lemma SumSnoc(xs: seq<int>, n: nat)
    requires n < |xs|
    ensures Sum(xs[..n + 1]) == Sum(xs[..n]) + xs[n]
  {
    assert xs[..n + 1][..n] == xs[..n];
  }

  lemma ArgMaxSnoc(xs: seq<int>, n: nat)
    requires n < |xs|
    ensures n == 0 ==> ArgMax(xs[..n + 1]) == 0
    ensures n > 0 ==>
              ArgMax(xs[..n + 1]) == if xs[n] > xs[ArgMax(xs[..n])] then n else ArgMax(xs[..n])
  {
    assert xs[..n + 1][..n] == xs[..n];
  }

  lemma {:induction false} SumPlus(a: seq<int>, b: seq<int>)
    requires |a| == |b|
    ensures Sum(Plus(a, b)) == Sum(a) + Sum(b)
  {
    if a != [] {
      var n := |a| - 1;
      SumPlus(a[..n], b[..n]);
      assert Plus(a, b)[..n] == Plus(a[..n], b[..n]);
    }
  }

  lemma {:induction false} SumUpdate(xs: seq<int>, i: nat, x: int)
    requires i < |xs|
    ensures Sum(xs[i := x]) == Sum(xs) - xs[i] + x
  {
    var n := |xs| - 1;
    if i == n {
      assert xs[i := x][..n] == xs[..n];
    } else {
      SumUpdate(xs[..n], i, x);
      assert xs[i := x][..n] == xs[..n][i := x];
    }
  }

  lemma {:induction false} SumNonPositive(xs: seq<int>)
    requires forall i :: 0 <= i < |xs| ==> xs[i] <= 0
    ensures Sum(xs) <= 0
  {
    if xs != [] { SumNonPositive(xs[..|xs| - 1]); }
  }

  lemma {:induction false} SumPositive(xs: seq<int>)
    requires Positive(xs)
    ensures Sum(xs) >= |xs|
  {
    if xs != [] { SumPositive(xs[..|xs| - 1]); }
  }

  /** n times w by repeated addition, which keeps the accounting below linear. */
  function Times(n: nat, w: int): (r: int)
    ensures w >= 0 ==> r >= 0
  {
    if n == 0 then 0 else Times(n - 1, w) + w
  }

  lemma {:induction false} TimesIsProduct(n: nat, w: int)
    ensures Times(n, w) == n * w
  {
    if n > 0 {
      TimesIsProduct(n - 1, w);
      assert (n - 1) * w + w == n * w;
    }
  }

  lemma {:induction false} TimesGrows(a: nat, b: nat, w: nat)
    requires a < b
    ensures Times(a, w) + w <= Times(b, w)
  {
    if a < b - 1 { TimesGrows(a, b - 1, w); }
  }

  /** One entry is bounded by the sum once every other entry has a floor. */
  lemma {:induction false} SumFloor(xs: seq<int>, i: nat, cap: int)
    requires i < |xs| && forall j :: 0 <= j < |xs| && j != i ==> xs[j] >= -cap
    ensures Sum(xs) >= xs[i] - Times(|xs| - 1, cap)
  {
    var n := |xs| - 1;
    if i == n {
      SumAtLeast(xs[..n], cap);
    } else {
      SumFloor(xs[..n], i, cap);
    }
  }

  lemma {:induction false} SumAtLeast(xs: seq<int>, cap: int)
    requires forall i :: 0 <= i < |xs| ==> xs[i] >= -cap
    ensures Sum(xs) >= -Times(|xs|, cap)
  {
    if xs != [] { SumAtLeast(xs[..|xs| - 1], cap); }
  }

  // ---------------------------------------------------------------- bounded credit

  /** Credits sum to zero and each exceeds -cap. */
  ghost predicate Balanced(cs: seq<int>, cap: int) {
    Sum(cs) == 0 && forall i :: 0 <= i < |cs| ==> cs[i] > -cap
  }

  /** The chosen candidate holds positive credit, so paying the pool never takes it to -cap. */
  lemma NextBalanced(cs: seq<int>, ws: seq<int>, cap: int)
    requires |cs| == |ws| > 0 && Positive(ws) && Sum(ws) <= cap && Balanced(cs, cap)
    ensures Balanced(Next(cs, ws), cap)
  {
    hide Sum, ArgMax;
    var s, i := Plus(cs, ws), Pick(cs, ws);
    SumPlus(cs, ws);
    SumUpdate(s, i, s[i] - Sum(ws));
    SumPositive(ws);
    if s[i] <= 0 { SumNonPositive(s); }
    assert Next(cs, ws) == s[i := s[i] - Sum(ws)];
  }

  lemma CreditCeiling(cs: seq<int>, cap: int, i: nat)
    requires Balanced(cs, cap) && i < |cs|
    ensures cs[i] <= (|cs| - 1) * cap
  {
    SumFloor(cs, i, cap);
    TimesIsProduct(|cs| - 1, cap);
  }

  // ---------------------------------------------------------------- constant weights

  function Zeros(n: nat): seq<int> { seq(n, _ => 0) }

  lemma {:induction false} SumZeros(n: nat)
    ensures Sum(Zeros(n)) == 0
  {
    if n > 0 {
      SumZeros(n - 1);
      assert Zeros(n)[..n - 1] == Zeros(n - 1);
    }
  }

  ghost predicate Pool(ws: seq<int>) { ws != [] && Positive(ws) }

  lemma PoolSum(ws: seq<int>)
    requires Pool(ws)
    ensures Sum(ws) >= |ws| >= 1
  {
    SumPositive(ws);
  }

  /** Credits after t rounds from a fresh pool. */
  ghost function After(ws: seq<int>, t: nat): (cs: seq<int>)
    requires Pool(ws)
    ensures |cs| == |ws|
  {
    if t == 0 then Zeros(|ws|) else Next(After(ws, t - 1), ws)
  }

  /** How often candidate i is chosen in the first t rounds. */
  ghost function Count(ws: seq<int>, t: nat, i: nat): nat
    requires Pool(ws)
  {
    if t == 0 then 0 else Count(ws, t - 1, i) + (if Pick(After(ws, t - 1), ws) == i then 1 else 0)
  }

  lemma {:induction false} AfterBalanced(ws: seq<int>, t: nat)
    requires Pool(ws)
    ensures Balanced(After(ws, t), Sum(ws))
  {
    PoolSum(ws);
    if t == 0 {
      SumZeros(|ws|);
    } else {
      AfterBalanced(ws, t - 1);
      NextBalanced(After(ws, t - 1), ws, Sum(ws));
    }
  }

  /** Credit is exactly the due share minus what was given. */
  lemma {:induction false} CreditAccount(ws: seq<int>, t: nat, i: nat)
    requires Pool(ws) && i < |ws|
    ensures After(ws, t)[i] == Times(t, ws[i]) - Times(Count(ws, t, i), Sum(ws))
  {
    hide Pick, Next, Sum;
    if t > 0 { CreditAccount(ws, t - 1, i); }
  }

  /** In every prefix no candidate is a whole round ahead of its proportional share. */
  lemma PrefixFairness(ws: seq<int>, t: nat, i: nat)
    requires Pool(ws) && i < |ws|
    ensures Count(ws, t, i) * Sum(ws) < t * ws[i] + Sum(ws)
  {
    AfterBalanced(ws, t);
    CreditAccount(ws, t, i);
    TimesIsProduct(t, ws[i]);
    TimesIsProduct(Count(ws, t, i), Sum(ws));
  }

  lemma ShareReached(share: nat, given: nat, w: nat)
    requires w >= 1 && Times(w, share) - Times(given, w) + w > 0
    ensures Times(w, share) - Times(given, w) >= 0
    ensures Times(w, share) - Times(given, w) == 0 ==> share == given
  {
    TimesIsProduct(w, share);
    TimesIsProduct(share, w);
    assert Times(w, share) == Times(share, w);
    if share < given {
      TimesGrows(share, given, w);
    } else if given < share {
      TimesGrows(given, share, w);
    }
  }

  /** A block of Sum(ws) rounds chooses each candidate exactly its weight and returns every credit to zero. */
  lemma BlockFairness(ws: seq<int>)
    requires Pool(ws)
    ensures Sum(ws) >= 1 && After(ws, Sum(ws)) == Zeros(|ws|)
    ensures forall i :: 0 <= i < |ws| ==> Count(ws, Sum(ws), i) == ws[i]
  {
    hide Sum, Times, After, Count;
    PoolSum(ws);
    var w := Sum(ws);
    var cs := After(ws, w);
    AfterBalanced(ws, w);
    forall i | 0 <= i < |ws| ensures cs[i] >= 0 && (cs[i] == 0 ==> Count(ws, w, i) == ws[i]) {
      CreditAccount(ws, w, i);
      ShareReached(ws[i], Count(ws, w, i), w);
    }
    forall i | 0 <= i < |ws| ensures cs[i] == 0 {
      SumFloor(cs, i, 0);
      TimesIsProduct(|cs| - 1, 0);
    }
  }
}

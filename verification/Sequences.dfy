/** Filtering, mapping and summing, and their indifference to order. */
module Sequences {
  import opened Common

  function Filter<T(!new)>(xs: seq<T>, p: T -> bool): (r: seq<T>)
    ensures forall x :: x in r <==> x in xs && p(x)
  {
    if xs == [] then []
    else
      var r := Filter(xs[..|xs| - 1], p);
      var x := xs[|xs| - 1];
      assert xs == xs[..|xs| - 1] + [x];
      if p(x) then r + [x] else r
  }

  function MapSeq<T, U>(xs: seq<T>, f: T -> U): (r: seq<U>)
    ensures |r| == |xs| && forall i :: 0 <= i < |xs| ==> r[i] == f(xs[i])
  {
    seq(|xs|, i requires 0 <= i < |xs| => f(xs[i]))
  }

  function SumBy<T>(xs: seq<T>, f: T -> int): int {
    if xs == [] then 0 else SumBy(xs[..|xs| - 1], f) + f(xs[|xs| - 1])
  }

  // ---------------------------------------------------------------- order

  lemma {:induction false} FilterCount<T(!new)>(xs: seq<T>, p: T -> bool, x: T)
    ensures multiset(Filter(xs, p))[x] == if p(x) then multiset(xs)[x] else 0
  {
    if xs != [] {
      var n := |xs| - 1;
      FilterCount(xs[..n], p, x);
      assert xs == xs[..n] + [xs[n]];
    }
  }

  lemma FilterPermutes<T(!new)>(a: seq<T>, b: seq<T>, p: T -> bool)
    requires multiset(a) == multiset(b)
    ensures multiset(Filter(a, p)) == multiset(Filter(b, p))
  {
    forall x ensures multiset(Filter(a, p))[x] == multiset(Filter(b, p))[x] {
      FilterCount(a, p, x);
      FilterCount(b, p, x);
    }
  }

  lemma {:induction false} FilterConcat<T(!new)>(a: seq<T>, b: seq<T>, p: T -> bool)
    ensures Filter(a + b, p) == Filter(a, p) + Filter(b, p)
  {
    if b == [] {
      assert a + b == a;
    } else {
      hide Filter;
      var n := |b| - 1;
      var tail := if p(b[n]) then [b[n]] else [];
      FilterConcat(a, b[..n], p);
      FilterLast(b, p);
      FilterLast(a + b, p);
      WithoutLast(a, b);
      Regroup(Filter(a, p), Filter(b[..n], p), tail);
    }
  }

  lemma WithoutLast<T>(a: seq<T>, b: seq<T>)
    requires b != []
    ensures var m, n := |a + b| - 1, |b| - 1; (a + b)[..m] == a + b[..n] && (a + b)[m] == b[n]
  {
  }

  lemma Regroup<T>(a: seq<T>, b: seq<T>, c: seq<T>)
    ensures a + (b + c) == (a + b) + c
  {
  }

  lemma FilterLast<T(!new)>(xs: seq<T>, p: T -> bool)
    requires xs != []
    ensures var n := |xs| - 1; Filter(xs, p) == Filter(xs[..n], p) + if p(xs[n]) then [xs[n]] else []
  {
  }

  lemma {:induction false} FilterAll<T(!new)>(xs: seq<T>, p: T -> bool)
    requires forall x :: x in xs ==> p(x)
    ensures Filter(xs, p) == xs
  {
    if xs != [] {
      hide Filter;
      var n := |xs| - 1;
      assert xs[n] in xs;
      FilterAll(xs[..n], p);
      FilterLast(xs, p);
      Rejoined(xs);
    }
  }

  lemma Rejoined<T>(xs: seq<T>)
    requires xs != []
    ensures xs[..|xs| - 1] + [xs[|xs| - 1]] == xs
  {
  }

  lemma {:induction false} FilterNone<T(!new)>(xs: seq<T>, p: T -> bool)
    requires forall x :: x in xs ==> !p(x)
    ensures Filter(xs, p) == []
  {
    if xs != [] { FilterNone(xs[..|xs| - 1], p); }
  }

  function Not<T>(p: T -> bool): T -> bool { x => !p(x) }

  /** Those that satisfy p, then the others. */
  function Sorted<T(!new)>(xs: seq<T>, p: T -> bool): seq<T> { Filter(xs, p) + Filter(xs, Not(p)) }

  lemma SortedPermutes<T(!new)>(xs: seq<T>, p: T -> bool)
    ensures multiset(Sorted(xs, p)) == multiset(xs)
  {
    hide Filter;
    forall x ensures multiset(Sorted(xs, p))[x] == multiset(xs)[x] {
      FilterCount(xs, p, x);
      FilterCount(xs, Not(p), x);
    }
  }

  lemma PermutesLength<T(!new)>(a: seq<T>, b: seq<T>)
    requires multiset(a) == multiset(b)
    ensures |a| == |b| && forall x :: x in a <==> x in b
  {
    assert |a| == |multiset(a)| && |b| == |multiset(b)|;
    forall x ensures x in a <==> x in b {
      assert x in a <==> x in multiset(a);
      assert x in b <==> x in multiset(b);
    }
  }

  lemma Around<T>(b: seq<T>, j: nat)
    requires j < |b|
    ensures b == b[..j] + ([b[j]] + b[j + 1..])
  {
  }

  lemma RemovedIs<T>(b: seq<T>, j: nat)
    requires j < |b|
    ensures RemoveAt(b, j) == b[..j] + b[j + 1..]
  {
  }

  /** Taking one entry out of a sequence takes exactly that entry out of its contents. */
  lemma RemoveContents<T(!new)>(b: seq<T>, j: nat)
    requires j < |b|
    ensures multiset(b) == multiset(RemoveAt(b, j)) + multiset{b[j]}
  {
    hide RemoveAt;
    var l, r := b[..j], b[j + 1..];
    Around(b, j);
    RemovedIs(b, j);
    assert multiset(l + ([b[j]] + r)) == multiset(l) + multiset([b[j]] + r);
  }

  lemma LastContents<T(!new)>(a: seq<T>)
    requires a != []
    ensures multiset(a) == multiset(a[..|a| - 1]) + multiset{a[|a| - 1]}
  {
    assert a == a[..|a| - 1] + [a[|a| - 1]];
  }

  lemma CancelOne<T(!new)>(m: multiset<T>, n: multiset<T>, x: T)
    requires m + multiset{x} == n + multiset{x}
    ensures m == n
  {
    assert m == (m + multiset{x}) - multiset{x};
    assert n == (n + multiset{x}) - multiset{x};
  }

  /** The last entry of a occurs in b; taking it out of both leaves permutations of each other. */
  lemma Extract<T(!new)>(a: seq<T>, b: seq<T>) returns (j: nat)
    requires a != [] && multiset(a) == multiset(b)
    ensures j < |b| && b[j] == a[|a| - 1] && multiset(a[..|a| - 1]) == multiset(RemoveAt(b, j))
  {
    hide RemoveAt;
    var x := a[|a| - 1];
    PermutesLength(a, b);
    assert x in a;
    j :| 0 <= j < |b| && b[j] == x;
    LastContents(a);
    RemoveContents(b, j);
    CancelOne(multiset(a[..|a| - 1]), multiset(RemoveAt(b, j)), x);
  }

  lemma {:induction false} SumConcat<T(!new)>(a: seq<T>, b: seq<T>, f: T -> int)
    ensures SumBy(a + b, f) == SumBy(a, f) + SumBy(b, f)
  {
    if b == [] {
      assert a + b == a;
    } else {
      var n := |b| - 1;
      SumConcat(a, b[..n], f);
      assert (a + b)[..|a + b| - 1] == a + b[..n];
    }
  }

  lemma SumOne<T(!new)>(x: T, f: T -> int)
    ensures SumBy([x], f) == f(x)
  {
  }

  lemma SumMiddle<T(!new)>(l: seq<T>, x: T, r: seq<T>, f: T -> int)
    ensures SumBy(l + ([x] + r), f) == SumBy(l + r, f) + f(x)
  {
    hide SumBy;
    SumConcat(l, [x] + r, f);
    SumConcat([x], r, f);
    SumConcat(l, r, f);
    SumOne(x, f);
  }

  lemma SumRemove<T(!new)>(b: seq<T>, j: nat, f: T -> int)
    requires j < |b|
    ensures SumBy(b, f) == SumBy(RemoveAt(b, j), f) + f(b[j])
  {
    hide SumBy, RemoveAt;
    Around(b, j);
    RemovedIs(b, j);
    SumMiddle(b[..j], b[j], b[j + 1..], f);
  }

  lemma {:induction false} SumPermutes<T(!new)>(a: seq<T>, b: seq<T>, f: T -> int)
    requires multiset(a) == multiset(b)
    ensures SumBy(a, f) == SumBy(b, f)
    decreases |a|
  {
    PermutesLength(a, b);
    if a != [] {
      var j := Extract(a, b);
      SumPermutes(a[..|a| - 1], RemoveAt(b, j), f);
      SumRemove(b, j, f);
    }
  }

  lemma MapRemove<T(!new), U>(b: seq<T>, j: nat, f: T -> U)
    requires j < |b|
    ensures MapSeq(RemoveAt(b, j), f) == RemoveAt(MapSeq(b, f), j)
  {
    hide MapSeq, RemoveAt;
  }

  lemma {:induction false} MapPermutes<T(!new), U(!new)>(a: seq<T>, b: seq<T>, f: T -> U)
    requires multiset(a) == multiset(b)
    ensures multiset(MapSeq(a, f)) == multiset(MapSeq(b, f))
    decreases |a|
  {
    hide MapSeq, RemoveAt;
    PermutesLength(a, b);
    if a == [] {
      assert MapSeq(a, f) == MapSeq(b, f);
    } else {
      var n := |a| - 1;
      var j := Extract(a, b);
      MapPermutes(a[..n], RemoveAt(b, j), f);
      MapRemove(b, j, f);
      RemoveContents(MapSeq(b, f), j);
      LastContents(MapSeq(a, f));
      assert MapSeq(a, f)[..n] == MapSeq(a[..n], f);
    }
  }

  lemma {:induction false} MapInjective<T(!new), U(!new)>(a: seq<T>, b: seq<T>, f: T -> U)
    requires forall x, y :: f(x) == f(y) ==> x == y
    requires multiset(MapSeq(a, f)) == multiset(MapSeq(b, f))
    ensures multiset(a) == multiset(b)
    decreases |a|
  {
    hide MapSeq, RemoveAt;
    PermutesLength(MapSeq(a, f), MapSeq(b, f));
    if a == [] {
      assert b == [];
    } else {
      var n := |a| - 1;
      var j := Extract(MapSeq(a, f), MapSeq(b, f));
      assert f(b[j]) == f(a[n]);
      MapRemove(b, j, f);
      assert MapSeq(a, f)[..n] == MapSeq(a[..n], f);
      MapInjective(a[..n], RemoveAt(b, j), f);
      RemoveContents(b, j);
      LastContents(a);
    }
  }

  /** Summing what a filter keeps is summing with the rest counted as nothing. */
  lemma {:induction false} SumFilter<T(!new)>(xs: seq<T>, p: T -> bool, f: T -> int, g: T -> int)
    requires forall x :: g(x) == if p(x) then f(x) else 0
    ensures SumBy(Filter(xs, p), f) == SumBy(xs, g)
  {
    if xs != [] {
      var n := |xs| - 1;
      SumFilter(xs[..n], p, f, g);
      if p(xs[n]) {
        var r := Filter(xs[..n], p);
        assert (r + [xs[n]])[..|r|] == r;
      }
    }
  }

  // ---------------------------------------------------------------- pairings

  /** A one-to-one assignment of positions. */
  ghost predicate Pairing(p: seq<nat>, n: nat) {
    && |p| == n
    && (forall i :: 0 <= i < n ==> p[i] < n)
    && (forall i, j :: 0 <= i < j < n ==> p[i] != p[j])
  }

  /** Positions after one entry was put back at j. */
  function Shifted(p: seq<nat>, j: nat): (r: seq<nat>)
    ensures |r| == |p| && forall i :: 0 <= i < |p| ==> r[i] == if p[i] < j then p[i] else p[i] + 1
  {
    seq(|p|, i requires 0 <= i < |p| => if p[i] < j then p[i] else p[i] + 1)
  }

  function Unshifted(p: seq<nat>, j: nat): (r: seq<nat>)
    ensures |r| == |p| && forall i :: 0 <= i < |p| ==> r[i] == if p[i] <= j then p[i] else p[i] - 1
  {
    seq(|p|, i requires 0 <= i < |p| => if p[i] <= j then p[i] else p[i] - 1)
  }

  /** Sequences with the same contents can be paired entry by entry. */
  lemma {:induction false} PairingExists<T(!new)>(a: seq<T>, b: seq<T>) returns (p: seq<nat>)
    requires multiset(a) == multiset(b)
    ensures Pairing(p, |a|) && |a| == |b| && forall i :: 0 <= i < |a| ==> a[i] == b[p[i]]
    decreases |a|
  {
    hide RemoveAt, Shifted;
    PermutesLength(a, b);
    if a == [] {
      p := [];
    } else {
      var n := |a| - 1;
      var j := Extract(a, b);
      var q := PairingExists(a[..n], RemoveAt(b, j));
      p := Shifted(q, j) + [j];
      PairingGrows(q, n, j, p);
      forall i | 0 <= i < |a| ensures a[i] == b[p[i]] {
        if i < n { assert a[..n][i] == a[i] && RemoveAt(b, j)[q[i]] == b[p[i]]; }
      }
    }
  }

  lemma PairingGrows(q: seq<nat>, n: nat, j: nat, p: seq<nat>)
    requires Pairing(q, n) && j <= n && p == Shifted(q, j) + [j]
    ensures Pairing(p, n + 1)
  {
    hide Shifted;
    forall x, y | 0 <= x < y < n + 1 ensures p[x] != p[y] {
      if y < n { assert q[x] != q[y]; }
    }
  }

  lemma PairingShrinks(p: seq<nat>, n: nat, q: seq<nat>)
    requires Pairing(p, n + 1) && q == Unshifted(p[..n], p[n])
    ensures Pairing(q, n)
  {
    hide Unshifted;
    forall x, y | 0 <= x < y < n ensures q[x] != q[y] {
      assert p[x] != p[y] && p[x] != p[n] && p[y] != p[n];
    }
    forall x | 0 <= x < n ensures q[x] < n { assert p[x] != p[n]; }
  }

  /** And paired sequences have the same contents. */
  lemma {:induction false} PairingPermutes<T(!new)>(a: seq<T>, b: seq<T>, p: seq<nat>)
    requires |a| == |b| && Pairing(p, |a|) && forall i :: 0 <= i < |a| ==> a[i] == b[p[i]]
    ensures multiset(a) == multiset(b)
    decreases |a|
  {
    hide RemoveAt, Unshifted;
    if a == [] {
      assert a == b;
    } else {
      var n := |a| - 1;
      var j := p[n];
      var q := Unshifted(p[..n], j);
      PairingShrinks(p, n, q);
      forall i | 0 <= i < n ensures a[..n][i] == RemoveAt(b, j)[q[i]] {
        assert p[i] != p[n];
        assert RemoveAt(b, j)[if p[i] < j then p[i] else p[i] - 1] == b[p[i]];
      }
      PairingPermutes(a[..n], RemoveAt(b, j), q);
      RemoveContents(b, j);
      LastContents(a);
    }
  }
}

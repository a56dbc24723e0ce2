/** Placements, levels and tiles: the prefix-sum walk, unminted placements and their token ids. */
module Terraforms {
  import opened Common
  import D = Decimal

  const PREFIX := "unminted-tile-"
  const PLACEMENT_SEED := 10196
  const LEVEL_DIMENSIONS: seq<nat> := [4, 8, 8, 16, 16, 24, 24, 24, 16, 32, 32, 16, 48, 48, 24, 24, 16, 8, 8, 4]

  datatype LevelTile = LevelTile(level: int, tile: int)

  /** Parcels on the levels before l. */
  function Start(dims: seq<nat>, l: nat): nat
    requires l <= |dims|
  {
    if l == 0 then 0 else Start(dims, l - 1) + dims[l - 1] * dims[l - 1]
  }

  function TotalParcels(dims: seq<nat>): nat { Start(dims, |dims|) }

  /** A pair the renderer accepts. */
  predicate OnMap(dims: seq<nat>, p: LevelTile) {
    0 <= p.level < |dims| && 0 <= p.tile < dims[p.level] * dims[p.level]
  }

  /** First level from l on whose end lies beyond the position. */
  function Walk(dims: seq<nat>, l: nat, position: int): Option<LevelTile>
    requires l <= |dims|
    decreases |dims| - l
  {
    if l == |dims| then None
    else if position < Start(dims, l + 1) then Some(LevelTile(l, position - Start(dims, l)))
    else Walk(dims, l + 1, position)
  }

  /** A remainder by zero throws, and so does a walk that runs past the last level. */
  function Locate(dims: seq<nat>, placement: int, seed: int): Result<LevelTile> {
    if TotalParcels(dims) == 0 then Thrown
    else match Walk(dims, 0, Rem(placement + seed, TotalParcels(dims)))
      case None => Thrown
      case Some(p) => Ok(p)
  }

  method ResolveLevelAndTileFromPlacement(dims: seq<nat>, placement: int, seed: int) returns (r: Result<LevelTile>)
    ensures r == Locate(dims, placement, seed)
  {
    var total := TotalParcels(dims);
    if total == 0 { return Thrown; }
    var rotated := Rem(placement + seed, total);
    var previousLevelStart, currentLevelEnd := 0, 0;
    for l := 0 to |dims|
      invariant previousLevelStart == currentLevelEnd == Start(dims, l)
      invariant Walk(dims, 0, rotated) == Walk(dims, l, rotated)
    {
      currentLevelEnd := currentLevelEnd + dims[l] * dims[l];
      if rotated < currentLevelEnd { return Ok(LevelTile(l, rotated - previousLevelStart)); }
      previousLevelStart := currentLevelEnd;
    }
    return Thrown;
  }

  // ---------------------------------------------------------------- the walk is a bijection

  lemma {:induction false} StartGrows(dims: seq<nat>, l: nat, m: nat)
    requires l <= m <= |dims|
    ensures Start(dims, l) <= Start(dims, m)
  {
    if l < m { StartGrows(dims, l, m - 1); }
  }

  /** A position inside the map lands on the one level that holds it. */
  lemma {:induction false} WalkLands(dims: seq<nat>, l: nat, position: int)
    requires l <= |dims| && Start(dims, l) <= position < TotalParcels(dims)
    ensures var r := Walk(dims, l, position);
            r.Some? && OnMap(dims, r.value) && Start(dims, r.value.level) + r.value.tile == position
    decreases |dims| - l
  {
    if l < |dims| && position >= Start(dims, l + 1) { WalkLands(dims, l + 1, position); }
  }

  /** Every pair on the map is where its own position lands. */
  lemma {:induction false} WalkFinds(dims: seq<nat>, l: nat, p: LevelTile)
    requires OnMap(dims, p) && l <= p.level
    ensures Walk(dims, l, Start(dims, p.level) + p.tile) == Some(p)
    decreases p.level - l
  {
    if l < p.level {
      StartGrows(dims, l + 1, p.level);
      WalkFinds(dims, l + 1, p);
    }
  }

  lemma OnMapBelowTotal(dims: seq<nat>, p: LevelTile)
    requires OnMap(dims, p)
    ensures Start(dims, p.level) + p.tile < TotalParcels(dims)
  {
    StartGrows(dims, p.level + 1, |dims|);
  }

  /** The only placement in the domain that resolves to a pair, whatever the seed. */
  function PlacementOf(dims: seq<nat>, seed: int, p: LevelTile): nat
    requires OnMap(dims, p)
  {
    OnMapBelowTotal(dims, p);
    (Start(dims, p.level) + p.tile - seed) % TotalParcels(dims)
  }

  lemma ModShift(a: int, b: int, n: nat)
    requires n > 0
    ensures ((a - b) % n + b) % n == a % n
  {
    var q := (a - b) / n;
    assert (a - b) % n + b == a - q * n;
    ModMinus(a, q, n);
  }

  lemma ModMinus(a: int, q: int, n: nat)
    requires n > 0
    ensures (a - q * n) % n == a % n
  {
    var x, y := a - q * n, a;
    var d, e := x / n, y / n;
    assert x == d * n + x % n && y == e * n + y % n;
    assert (e - d - q) * n == x % n - y % n;
    Multiple(e - d - q, n, x % n - y % n);
  }

  lemma Multiple(k: int, n: nat, r: int)
    requires k * n == r
    ensures k == 0 || r >= n || r + n <= 0
  {
    if k > 0 {
      D.AtLeastOnce(k, n);
    } else if k < 0 {
      D.AtLeastOnce(-k, n);
      assert (-k) * n == -(k * n);
    }
  }

  lemma Small(a: nat, n: nat)
    requires a < n
    ensures a % n == a
  {
  }

  /** With a nonnegative seed, placements 0..total-1 correspond one to one to the pairs on the map. */
  lemma PlacementBijection(dims: seq<nat>, seed: nat)
    ensures forall n | 0 <= n < TotalParcels(dims) ::
              && Locate(dims, n, seed).Ok? && OnMap(dims, Locate(dims, n, seed).value)
              && PlacementOf(dims, seed, Locate(dims, n, seed).value) == n
    ensures forall p | OnMap(dims, p) ::
              PlacementOf(dims, seed, p) < TotalParcels(dims) && Locate(dims, PlacementOf(dims, seed, p), seed) == Ok(p)
  {
    hide Walk, Start;
    var total := TotalParcels(dims);
    forall n | 0 <= n < total
      ensures Locate(dims, n, seed).Ok? && OnMap(dims, Locate(dims, n, seed).value)
      ensures PlacementOf(dims, seed, Locate(dims, n, seed).value) == n
    {
      PlacementResolves(dims, seed, n);
    }
    forall p | OnMap(dims, p)
      ensures PlacementOf(dims, seed, p) < total && Locate(dims, PlacementOf(dims, seed, p), seed) == Ok(p)
    {
      PairReached(dims, seed, p);
    }
  }

  lemma PlacementResolves(dims: seq<nat>, seed: nat, n: nat)
    requires n < TotalParcels(dims)
    ensures Locate(dims, n, seed).Ok? && OnMap(dims, Locate(dims, n, seed).value)
    ensures PlacementOf(dims, seed, Locate(dims, n, seed).value) == n
  {
    hide Walk;
    var total := TotalParcels(dims);
    var rotated := (n + seed) % total;
    assert Start(dims, 0) == 0;
    hide Start;
    WalkLands(dims, 0, rotated);
    ModUnshift(n, seed, total);
  }

  lemma ModUnshift(a: nat, b: nat, n: nat)
    requires a < n
    ensures ((a + b) % n - b) % n == a
  {
    ModMinus2(a + b, b, n);
    Small(a, n);
  }

  lemma ModMinus2(x: int, b: int, n: nat)
    requires n > 0
    ensures (x % n - b) % n == (x - b) % n
  {
    assert x % n == x - (x / n) * n;
    ModMinus(x - b, x / n, n);
  }

  lemma PairReached(dims: seq<nat>, seed: nat, p: LevelTile)
    requires OnMap(dims, p)
    ensures PlacementOf(dims, seed, p) < TotalParcels(dims) && Locate(dims, PlacementOf(dims, seed, p), seed) == Ok(p)
  {
    hide Walk, Start;
    OnMapBelowTotal(dims, p);
    var position := Start(dims, p.level) + p.tile;
    ModShift(position, seed, TotalParcels(dims));
    Small(position, TotalParcels(dims));
    WalkFinds(dims, 0, p);
  }

  /** For any placement and seed, the pair is on the map exactly when there are parcels and the rotation
      is not negative: a truncating remainder keeps a negative sign, and level zero takes it. */
  lemma LocateOnMapExactly(dims: seq<nat>, placement: int, seed: int)
    ensures Locate(dims, placement, seed).Ok? && OnMap(dims, Locate(dims, placement, seed).value) <==>
            TotalParcels(dims) > 0 && (placement + seed >= 0 || (-(placement + seed)) % TotalParcels(dims) == 0)
  {
    hide Walk;
    var total := TotalParcels(dims);
    if total > 0 {
      var rotated := Rem(placement + seed, total);
      assert Start(dims, 0) == 0;
      if rotated >= 0 {
        WalkLands(dims, 0, rotated);
      } else {
        NegativeWalk(dims, rotated);
      }
    }
  }

  /** One placement below minus the seed is sent to tile -1 of level zero. */
  lemma NegativePlacement()
    ensures Locate(LEVEL_DIMENSIONS, -10197, PLACEMENT_SEED) == Ok(LevelTile(0, -1))
    ensures !OnMap(LEVEL_DIMENSIONS, LevelTile(0, -1))
  {
    hide Walk;
    HypercastleTotal();
    hide Start;
    NegativeWalk(LEVEL_DIMENSIONS, -1);
  }

  lemma NegativeWalk(dims: seq<nat>, position: int)
    requires position < 0 && dims != []
    ensures Walk(dims, 0, position) == Some(LevelTile(0, position))
  {
    assert Start(dims, 0) == 0;
    assert dims[0] * dims[0] >= 0;
    assert position < Start(dims, 1);
  }

  /** The contract's level table holds 11104 parcels. */
  lemma HypercastleTotal()
    ensures TotalParcels(LEVEL_DIMENSIONS) == 11104
  {
    assert Start(LEVEL_DIMENSIONS, 2) == 80;
    assert Start(LEVEL_DIMENSIONS, 4) == 400;
    assert Start(LEVEL_DIMENSIONS, 6) == 1232;
    assert Start(LEVEL_DIMENSIONS, 8) == 2384;
    assert Start(LEVEL_DIMENSIONS, 10) == 3664;
    assert Start(LEVEL_DIMENSIONS, 12) == 4944;
    assert Start(LEVEL_DIMENSIONS, 14) == 9552;
    assert Start(LEVEL_DIMENSIONS, 16) == 10704;
    assert Start(LEVEL_DIMENSIONS, 18) == 11024;
    assert Start(LEVEL_DIMENSIONS, 20) == 11104;
  }

  /** Each placement of the contract has a tile of its own. */
  lemma HypercastlePlacements(n: nat)
    requires n < 11104
    ensures Locate(LEVEL_DIMENSIONS, n, PLACEMENT_SEED).Ok? &&
            OnMap(LEVEL_DIMENSIONS, Locate(LEVEL_DIMENSIONS, n, PLACEMENT_SEED).value)
    ensures PlacementOf(LEVEL_DIMENSIONS, PLACEMENT_SEED, Locate(LEVEL_DIMENSIONS, n, PLACEMENT_SEED).value) == n
  {
    hide Start, Locate;
    HypercastleTotal();
    PlacementResolves(LEVEL_DIMENSIONS, PLACEMENT_SEED, n);
  }

  // ---------------------------------------------------------------- unminted placements

  predicate InSupply(p: int, supply: nat) { 0 <= p < supply }

  predicate Ascending(xs: seq<int>) { forall i, j :: 0 <= i < j < |xs| ==> xs[i] < xs[j] }

  /** Refused exactly when a minted placement is out of range; otherwise minted and unminted placements
      partition the supply, with the unminted ones in ascending order. */
  method ResolveUnmintedPlacements(mintedPlacements: seq<int>, supply: nat) returns (r: Result<seq<int>>)
    ensures r.Thrown? <==> exists i :: 0 <= i < |mintedPlacements| && !InSupply(mintedPlacements[i], supply)
    ensures r.Ok? ==> Ascending(r.value)
    ensures r.Ok? ==> forall p :: p in r.value <==> InSupply(p, supply) && p !in mintedPlacements
  {
    hide D.ToDec;
    var minted: set<string> := {};
    for i := 0 to |mintedPlacements|
      invariant forall j :: 0 <= j < i ==> InSupply(mintedPlacements[j], supply)
      invariant forall n: nat :: D.ToDec(n) in minted <==> n in mintedPlacements[..i]
    {
      var p := mintedPlacements[i];
      if !InSupply(p, supply) { return Thrown; }
      forall n: nat ensures D.ToDec(n) in minted + {D.ToDec(p)} <==> n in mintedPlacements[..i + 1] {
        assert mintedPlacements[..i + 1] == mintedPlacements[..i] + [p];
        if D.ToDec(n) == D.ToDec(p) { D.ToDecInjective(n, p); }
      }
      minted := minted + {D.ToDec(p)};
    }
    assert mintedPlacements[..|mintedPlacements|] == mintedPlacements;
    var unminted: seq<int> := [];
    for placement := 0 to supply
      invariant Ascending(unminted)
      invariant forall p :: p in unminted <==> 0 <= p < placement && p !in mintedPlacements
    {
      if D.ToDec(placement) !in minted {
        assert forall i :: 0 <= i < |unminted| ==> unminted[i] in unminted;
        unminted := unminted + [placement];
      }
    }
    return Ok(unminted);
  }

  // ---------------------------------------------------------------- token ids

  function BuildUnmintedTokenId(placement: int, supply: nat): Result<string> {
    if InSupply(placement, supply) then Ok(PREFIX + D.ToDec(placement)) else Thrown
  }

  /** Ok(None) for text that is no such id; a well-formed id out of range throws. */
  function ParseUnmintedTokenId(s: string, supply: nat): Result<Option<int>> {
    if !(PREFIX <= s) then Ok(None)
    else
      var raw := s[|PREFIX|..];
      if raw == "" || !D.Digits(raw) then Ok(None)
      else if InSupply(D.Val(raw), supply) then Ok(Some(D.Val(raw)))
      else Thrown
  }

  /** Parsing a built id returns its placement. */
  lemma ParseBuilt(placement: int, supply: nat)
    requires BuildUnmintedTokenId(placement, supply).Ok?
    ensures ParseUnmintedTokenId(BuildUnmintedTokenId(placement, supply).value, supply) == Ok(Some(placement))
  {
    hide D.ToDec, D.Val;
    D.ValToDec(placement);
    var s := PREFIX + D.ToDec(placement);
    assert s[|PREFIX|..] == D.ToDec(placement);
  }

  /** Building what was parsed restores the text exactly when it had no superfluous zeros. */
  lemma BuildParsed(s: string, supply: nat)
    requires ParseUnmintedTokenId(s, supply).Ok? && ParseUnmintedTokenId(s, supply).value.Some?
    ensures BuildUnmintedTokenId(ParseUnmintedTokenId(s, supply).value.value, supply) == Ok(s)
            <==> D.Canonical(s[|PREFIX|..])
  {
    hide D.ToDec, D.Val;
    var raw := s[|PREFIX|..];
    assert s == PREFIX + raw;
    var text := D.ToDec(D.Val(raw));
    assert (PREFIX + text)[|PREFIX|..] == text;
    D.NormalIsToDec(raw);
    if D.Canonical(raw) { D.ToDecVal(raw); }
  }

  /** Parsing returns a placement exactly for the prefix and digits denoting one in the supply, throws exactly
      for digits denoting one beyond it, and takes any other text for no such id. */
  lemma ParseExactly(s: string, supply: nat, p: int)
    ensures ParseUnmintedTokenId(s, supply) == Ok(Some(p)) <==>
            exists raw: string ::
              s == "unminted-tile-" + raw && raw != "" && D.Digits(raw) && D.Val(raw) == p && p < supply
    ensures ParseUnmintedTokenId(s, supply) == Thrown <==>
            exists raw: string :: s == "unminted-tile-" + raw && raw != "" && D.Digits(raw) && D.Val(raw) >= supply
  {
    hide D.Val;
    if PREFIX <= s {
      var raw := s[|PREFIX|..];
      assert s == PREFIX + raw;
      assert forall other: string :: s == PREFIX + other ==> other == raw by {
        forall other: string | s == PREFIX + other ensures other == raw {
          assert (PREFIX + other)[|PREFIX|..] == other;
        }
      }
    }
  }
}

/** The placeholder generator of `src/krinkle.js`: `2M` angular sectors, each
    cut into five radial tiers, every tier a four-point polygon whose corners
    are pushed in or out by a "jaggedness" derived from A and B. */
module Radial {
  import opened Common

  /** `_polarToCartesian(radius, angle)`, with the angle measured in turns
      (one turn is `2 * Math.PI` radians); trigonometry is not modelled. */
  type Polar = (real, real) -> Vec

  const RadiusStep: int := 50
  const TiersPerSector: int := 5
  const RadialStroke: string := "#000000"

  /** The generator object: only its cached polygon list. */
  datatype RadialGenerator = RadialGenerator(polygons: seq<Polygon>)

  /** `numSectors = M * 2`. */
  function SectorCount(m: int): int {
    m * 2
  }

  /** Number of polygons `generate(M, ...)` pushes: five per sector, none when
      there are no sectors. */
  function TileCount(m: int): nat {
    if m > 0 then TiersPerSector * SectorCount(m) else 0
  }

  /** `angleStart` of sector `i` in turns: `i / numSectors`. */
  function StartTurn(i: int, n: int): real
    requires n > 0
  {
    i as real / n as real
  }

  /** `angleEnd` of sector `i` in turns: `(i + 1) / numSectors`. */
  function EndTurn(i: int, n: int): real
    requires n > 0
  {
    (i + 1) as real / n as real
  }

  function InnerRadius(tier: int): int {
    tier * RadiusStep
  }

  function OuterRadius(tier: int): int {
    (tier + 1) * RadiusStep
  }

  /** `(i % A) * 10 + (r % B) * 5`, with JavaScript's remainder. */
  function Jaggedness(i: int, tier: int, a: int, b: int): int
    requires a != 0 && b != 0
  {
    JsRem(i, a) * 10 + JsRem(tier, b) * 5
  }

  /** The polygon for sector `i`, tier `tier`: inner and outer corner on the
      start ray pushed out by the jaggedness, outer and inner corner on the end
      ray pulled in by it, filled with `hsl(i * 360 / numSectors + tier * 20,
      70%, 50%)` and stroked black. */
  function Tile(m: int, a: int, b: int, i: int, tier: int, polar: Polar): Polygon
    requires m > 0 && a != 0 && b != 0
  {
    var n := SectorCount(m);
    var j := Jaggedness(i, tier, a, b);
    var s := StartTurn(i, n);
    var e := EndTurn(i, n);
    Polygon(
      [polar((InnerRadius(tier) + j) as real, s),
       polar((OuterRadius(tier) + j) as real, s),
       polar((OuterRadius(tier) - j) as real, e),
       polar((InnerRadius(tier) - j) as real, e)],
      Hsl((i * 360) as real / n as real + (tier * 20) as real, 70, 50),
      Some(RadialStroke),
      NoMeta)
  }

  /** `generate(M, A, B, C)`: discards the cached polygons and pushes one tile
      per (sector, tier), sector-major with tiers 1 to 5 inside each sector.
      C is unused by `generate`. */
  method Generate(g: RadialGenerator, m: int, a: int, b: int, c: int, polar: Polar)
    returns (g': RadialGenerator, polys: seq<Polygon>)
    requires a != 0 && b != 0
    ensures g'.polygons == polys
    ensures |polys| == TileCount(m)
    ensures forall q :: 0 <= q < |polys| ==> polys[q] == Tile(m, a, b, q / 5, q % 5 + 1, polar)
    ensures forall q :: 0 <= q < |polys| ==>
      |polys[q].path| == 4 && polys[q].stroke == Some(RadialStroke)
  {
    polys := [];
    var n := SectorCount(m);
    var i := 0;
    while i < n
      invariant n > 0 ==> 0 <= i <= n
      invariant n <= 0 ==> i == 0
      invariant |polys| == TiersPerSector * i
      invariant forall q :: 0 <= q < |polys| ==> polys[q] == Tile(m, a, b, q / 5, q % 5 + 1, polar)
    {
      var tier := 1;
      while tier <= TiersPerSector
        invariant 1 <= tier <= TiersPerSector + 1
        invariant |polys| == TiersPerSector * i + tier - 1
        invariant forall q :: 0 <= q < |polys| ==> polys[q] == Tile(m, a, b, q / 5, q % 5 + 1, polar)
      {
        var tile := Tile(m, a, b, i, tier, polar);
        assert (TiersPerSector * i + tier - 1) / 5 == i && (TiersPerSector * i + tier - 1) % 5 + 1 == tier;
        polys := polys + [tile];
        tier := tier + 1;
      }
      i := i + 1;
    }
    g' := RadialGenerator(polys);
  }

  /** The output order read the other way round: the tile of sector `i`, tier
      `tier` sits at index `5 * i + tier - 1`. */
  lemma SectorMajorOrder(m: int, a: int, b: int, polar: Polar, polys: seq<Polygon>, i: int, tier: int)
    requires a != 0 && b != 0
    requires |polys| == TileCount(m)
    requires forall q :: 0 <= q < |polys| ==> polys[q] == Tile(m, a, b, q / 5, q % 5 + 1, polar)
    requires 0 <= i < SectorCount(m) && 1 <= tier <= TiersPerSector
    ensures 0 <= 5 * i + tier - 1 < |polys|
    ensures polys[5 * i + tier - 1] == Tile(m, a, b, i, tier, polar)
  {
    var q := 5 * i + tier - 1;
    assert q / 5 == i && q % 5 + 1 == tier;
  }

  /** The jaggedness never goes negative for the non-negative sector and tier
      indices `generate` uses, and never exceeds `10 (|A| - 1) + 5 (|B| - 1)`. */
  lemma JaggednessBounds(i: int, tier: int, a: int, b: int)
    requires i >= 0 && tier >= 0 && a != 0 && b != 0
    ensures 0 <= Jaggedness(i, tier, a, b) <= 10 * (Abs(a) - 1) + 5 * (Abs(b) - 1)
  {
  }

  /** The sectors tile the full turn: the first starts at angle 0, each one ends
      where the next starts, the last ends at one full turn, and none is empty. */
  lemma SectorsCoverTurn(m: int)
    requires m > 0
    ensures StartTurn(0, SectorCount(m)) == 0.0
    ensures forall i :: 0 <= i < SectorCount(m) - 1 ==>
      EndTurn(i, SectorCount(m)) == StartTurn(i + 1, SectorCount(m))
    ensures EndTurn(SectorCount(m) - 1, SectorCount(m)) == 1.0
    ensures forall i :: 0 <= i < SectorCount(m) ==>
      StartTurn(i, SectorCount(m)) < EndTurn(i, SectorCount(m))
  {
    var n := SectorCount(m);
    SectorsIncrease(n);
    SectorsMeet(n);
    FullTurn(n);
  }

  lemma SectorsMeet(n: int)
    requires n > 0
    ensures forall i :: 0 <= i < n - 1 ==> EndTurn(i, n) == StartTurn(i + 1, n)
  {
  }

  lemma FullTurn(n: int)
    requires n > 0
    ensures StartTurn(0, n) == 0.0 && EndTurn(n - 1, n) == 1.0
  {
  }

  lemma SectorsIncrease(n: int)
    requires n > 0
    ensures forall i :: 0 <= i < n ==> StartTurn(i, n) < EndTurn(i, n)
  {
    forall i | 0 <= i < n
      ensures StartTurn(i, n) < EndTurn(i, n)
    {
      DivLess(i as real, (i + 1) as real, n as real);
    }
  }

  /** Dividing by a positive number keeps `<`. */
  lemma DivLess(x: real, y: real, n: real)
    requires x < y && n > 0.0
    ensures x / n < y / n
  {
    assert (x / n) * n == x && (y / n) * n == y;
  }

  /** Each tier is one radius step thick, and the tiers stack without gaps:
      a tier's outer radius is the next tier's inner radius. */
  lemma TiersStack(tier: int)
    ensures OuterRadius(tier) - InnerRadius(tier) == RadiusStep
    ensures OuterRadius(tier) == InnerRadius(tier + 1)
  {
  }
}

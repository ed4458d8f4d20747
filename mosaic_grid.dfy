/**
 * The grid of the yearly burn mosaic (combinar_raster_v2.py, steps 1 to 3):
 * the union of the input rasters' extents, snapped to the pixel lattice of the
 * first raster, and the output width and height derived from it.
 *
 * Coordinates, resolutions and origins are exact reals. The reprojection of a
 * raster's bounds into the reference CRS is done by a library and is an input
 * here (`SourceRaster.boundsInRefCrs`).
 */
module MosaicGrid {
  import opened Basics

  /** A raster's extent as (left, bottom, right, top), in map units. */
  datatype Bounds = Bounds(left: real, bottom: real, right: real, top: real)

  /**
   * The scale and translation terms of an affine georeferencing transform:
   * `a` is the pixel width, `e` the pixel height (negative for north-up rasters),
   * (`c`, `f`) the map position of the upper-left corner.
   */
  datatype Transform = Transform(a: real, e: real, c: real, f: real)

  /**
   * One input raster as the mosaic builder sees it: its CRS, its transform, its
   * own bounds and what the reprojection library gives for those bounds in
   * the reference CRS.
   */
  datatype SourceRaster = SourceRaster(crs: string, transform: Transform, bounds: Bounds, boundsInRefCrs: Bounds)

  /** The rounding direction of `snap_to_grid`: 'floor' or 'ceil'. */
  datatype SnapMode = Floor | Ceil

  /** The mosaic grid: aligned bounds, size in pixels, and the reference resolution. */
  datatype GridSpec = GridSpec(left: real, right: real, top: real, bottom: real,
                               width: int, height: int, resX: real, resY: real)

  /**
   * What the builder raises before combining anything: an empty raster list
   * (indexing the reference raster fails), a zero resolution (the division in
   * `snap_to_grid` fails), or the explicit error for a non-positive size.
   */
  datatype MosaicError = NoRasters | ZeroResolution | InvalidExtent

  /** `math.ceil` written through floor, as -floor(-x). */
  function CeilOf(x: real): (k: int)
    ensures x <= k as real < x + 1.0
  {
    -((-x).Floor)
  }

  /** Python's `round` on a float: nearest integer, ties to the even one. */
  function RoundHalfEven(q: real): int {
    var f := q.Floor;
    var d := q - f as real;
    if d < 0.5 then f
    else if d > 0.5 then f + 1
    else if f % 2 == 0 then f else f + 1
  }

  /** The number of whole resolutions between the origin and the snapped value. */
  function SnapIndex(x: real, origin: real, res: real, mode: SnapMode): int
    requires res != 0.0
  {
    match mode
    case Floor => ((x - origin) / res).Floor
    case Ceil => CeilOf((x - origin) / res)
  }

  /** `s` lies on a lattice line: its offset from the origin is a whole number of resolutions. */
  predicate OnGrid(s: real, origin: real, res: real)
    requires res != 0.0
  {
    ((s - origin) / res).Floor as real == (s - origin) / res
  }

  lemma MultipleIsOnGrid(origin: real, res: real, k: int)
    requires res != 0.0
    ensures ((origin + k as real * res) - origin) / res == k as real
    ensures OnGrid(origin + k as real * res, origin, res)
  {
    assert (origin + k as real * res) - origin == k as real * res;
  }

  lemma ScaleMonotone(a: real, b: real, c: real)
    requires a <= b && c > 0.0
    ensures a * c <= b * c
  {
    assert b * c - a * c == (b - a) * c;
  }

  lemma ScaleStrict(a: real, b: real, c: real)
    requires a < b && c > 0.0
    ensures a * c < b * c
  {
    assert b * c - a * c == (b - a) * c;
  }

  /** Scaling a bound `q < k + 1` by a positive resolution. */
  lemma ScaledBelowNext(d: real, res: real, q: real, k: real)
    requires res > 0.0 && q * res == d
    requires q < k + 1.0
    ensures d < k * res + res
  {
    ScaleStrict(q, k + 1.0, res);
    assert (k + 1.0) * res == k * res + res;
  }

  /** Scaling a bound `k - 1 < q` by a positive resolution. */
  lemma ScaledAbovePrevious(d: real, res: real, q: real, k: real)
    requires res > 0.0 && q * res == d
    requires k - 1.0 < q
    ensures k * res < d + res
  {
    ScaleStrict(k - 1.0, q, res);
    assert (k - 1.0) * res == k * res - res;
  }

  /** Scaling a bound `q <= k` by a positive resolution. */
  lemma ScaledAtMost(d: real, res: real, q: real, k: real)
    requires res > 0.0 && q * res == d
    requires q <= k
    ensures d <= k * res
  {
    ScaleMonotone(q, k, res);
  }

  /** If `q` is `d / res` and `k <= q < k + 1`, then `d` lies in [k*res, k*res + res). */
  lemma CellBelow(d: real, res: real, q: real, k: real)
    requires res > 0.0 && q * res == d
    requires k <= q < k + 1.0
    ensures k * res <= d
    ensures d < k * res + res
  {
    ScaleMonotone(k, q, res);
    ScaledBelowNext(d, res, q, k);
  }

  /** If `q` is `d / res` and `k - 1 < q <= k`, then `k*res` lies in [d, d + res). */
  lemma CellAbove(d: real, res: real, q: real, k: real)
    requires res > 0.0 && q * res == d
    requires k - 1.0 < q <= k
    ensures d <= k * res
    ensures k * res < d + res
  {
    ScaledAtMost(d, res, q, k);
    ScaledAbovePrevious(d, res, q, k);
  }

  lemma QuotientTimesDivisor(d: real, res: real)
    requires res != 0.0
    ensures (d / res) * res == d
  {
  }

  /** Floor snapping lands at most one resolution below `x`. */
  lemma SnapFloorWithinOneCell(x: real, origin: real, res: real)
    requires res > 0.0
    ensures var s := origin + ((x - origin) / res).Floor as real * res;
            s <= x && x - s < res
  {
    QuotientTimesDivisor(x - origin, res);
    CellBelow(x - origin, res, (x - origin) / res, ((x - origin) / res).Floor as real);
  }

  /** Ceil snapping lands at most one resolution above `x`. */
  lemma SnapCeilWithinOneCell(x: real, origin: real, res: real)
    requires res > 0.0
    ensures var s := origin + CeilOf((x - origin) / res) as real * res;
            x <= s && s - x < res
  {
    QuotientTimesDivisor(x - origin, res);
    CellAbove(x - origin, res, (x - origin) / res, CeilOf((x - origin) / res) as real);
  }

  /** `snap_to_grid(x, origin, res, mode)`. */
  function SnapToGrid(x: real, origin: real, res: real, mode: SnapMode): (s: real)
    requires res != 0.0
    ensures OnGrid(s, origin, res)
    ensures res > 0.0 && mode == Floor ==> s <= x && x - s < res
    ensures res > 0.0 && mode == Ceil ==> x <= s && s - x < res
  {
    var k := SnapIndex(x, origin, res, mode);
    MultipleIsOnGrid(origin, res, k);
    if res > 0.0 && mode == Floor then
      SnapFloorWithinOneCell(x, origin, res);
      origin + k as real * res
    else if res > 0.0 then
      SnapCeilWithinOneCell(x, origin, res);
      origin + k as real * res
    else
      origin + k as real * res
  }

  /** Python's `min` over a non-empty sequence. */
  function MinOf(xs: seq<real>): (m: real)
    requires |xs| > 0
    ensures forall i :: 0 <= i < |xs| ==> m <= xs[i]
    ensures exists i :: 0 <= i < |xs| && m == xs[i]
  {
    if |xs| == 1 then xs[0]
    else
      var rest := MinOf(xs[1..]);
      if xs[0] <= rest then xs[0] else rest
  }

  /** Python's `max` over a non-empty sequence. */
  function MaxOf(xs: seq<real>): (m: real)
    requires |xs| > 0
    ensures forall i :: 0 <= i < |xs| ==> xs[i] <= m
    ensures exists i :: 0 <= i < |xs| && m == xs[i]
  {
    if |xs| == 1 then xs[0]
    else
      var rest := MaxOf(xs[1..]);
      if rest <= xs[0] then xs[0] else rest
  }

  /** The union extent: coordinatewise min of left/bottom, max of right/top. */
  function UnionExtent(all: seq<Bounds>): (u: Bounds)
    requires |all| > 0
    ensures forall i :: 0 <= i < |all| ==>
      u.left <= all[i].left && u.bottom <= all[i].bottom &&
      all[i].right <= u.right && all[i].top <= u.top
    ensures exists i :: 0 <= i < |all| && u.left == all[i].left
    ensures exists i :: 0 <= i < |all| && u.bottom == all[i].bottom
    ensures exists i :: 0 <= i < |all| && u.right == all[i].right
    ensures exists i :: 0 <= i < |all| && u.top == all[i].top
  {
    var lefts := seq(|all|, i requires 0 <= i < |all| => all[i].left);
    var bottoms := seq(|all|, i requires 0 <= i < |all| => all[i].bottom);
    var rights := seq(|all|, i requires 0 <= i < |all| => all[i].right);
    var tops := seq(|all|, i requires 0 <= i < |all| => all[i].top);
    assert forall i :: 0 <= i < |all| ==>
      lefts[i] == all[i].left && bottoms[i] == all[i].bottom && rights[i] == all[i].right && tops[i] == all[i].top;
    Bounds(MinOf(lefts), MinOf(bottoms), MaxOf(rights), MaxOf(tops))
  }

  /** A raster's bounds in the reference CRS: reprojected only when its CRS differs. */
  function BoundsInRef(r: SourceRaster, refCrs: string): Bounds {
    if r.crs != refCrs then r.boundsInRefCrs else r.bounds
  }

  /** The list `all_bounds` that the collection loop builds. */
  function RefBounds(rasters: seq<SourceRaster>, refCrs: string): seq<Bounds> {
    seq(|rasters|, i requires 0 <= i < |rasters| => BoundsInRef(rasters[i], refCrs))
  }

  /** The loop that appends each raster's bounds (in the reference CRS) to `all_bounds`. */
  method CollectBounds(rasters: seq<SourceRaster>, refCrs: string) returns (all: seq<Bounds>)
    ensures all == RefBounds(rasters, refCrs)
  {
    all := [];
    for k := 0 to |rasters|
      invariant |all| == k
      invariant forall i :: 0 <= i < k ==> all[i] == BoundsInRef(rasters[i], refCrs)
    {
      var b;
      if rasters[k].crs != refCrs {
        b := rasters[k].boundsInRefCrs;
      } else {
        b := rasters[k].bounds;
      }
      all := all + [b];
    }
  }

  /**
   * Snapping and sizing against the reference transform, with the vertical
   * rounding modes as parameters (the horizontal ones are always floor/ceil).
   */
  function Align(t: Transform, u: Bounds, topMode: SnapMode, bottomMode: SnapMode): Result<GridSpec, MosaicError> {
    var rx := t.a;
    var ry := Abs(t.e);
    if rx == 0.0 || ry == 0.0 then Err(ZeroResolution)
    else
      var minxAligned := SnapToGrid(u.left, t.c, rx, Floor);
      var maxxAligned := SnapToGrid(u.right, t.c, rx, Ceil);
      var topAligned := SnapToGrid(u.top, t.f, ry, topMode);
      var bottomAligned := SnapToGrid(u.bottom, t.f, ry, bottomMode);
      var width := RoundHalfEven((maxxAligned - minxAligned) / rx);
      var height := RoundHalfEven((topAligned - bottomAligned) / ry);
      if width <= 0 || height <= 0 then Err(InvalidExtent)
      else Ok(GridSpec(minxAligned, maxxAligned, topAligned, bottomAligned, width, height, rx, ry))
  }

  lemma DifferenceOfMultiples(origin: real, res: real, k1: int, k0: int)
    requires res != 0.0
    ensures ((origin + k1 as real * res) - (origin + k0 as real * res)) / res == (k1 - k0) as real
  {
    assert (origin + k1 as real * res) - (origin + k0 as real * res) == (k1 - k0) as real * res;
  }

  lemma RoundOfInteger(n: int)
    ensures RoundHalfEven(n as real) == n
  {
  }

  /** The pixel count between two snapped values is exactly the difference of their indices. */
  lemma SpanOfSnapped(x1: real, m1: SnapMode, x0: real, m0: SnapMode, origin: real, res: real)
    requires res != 0.0
    ensures RoundHalfEven((SnapToGrid(x1, origin, res, m1) - SnapToGrid(x0, origin, res, m0)) / res)
            == SnapIndex(x1, origin, res, m1) - SnapIndex(x0, origin, res, m0)
  {
    var k1, k0 := SnapIndex(x1, origin, res, m1), SnapIndex(x0, origin, res, m0);
    assert SnapToGrid(x1, origin, res, m1) == origin + k1 as real * res;
    assert SnapToGrid(x0, origin, res, m0) == origin + k0 as real * res;
    DifferenceOfMultiples(origin, res, k1, k0);
    RoundOfInteger(k1 - k0);
  }

  /**
   * Lines 54-62 as written: x is snapped outward (floor west, ceil east), y is
   * snapped with floor on the top and ceil on the bottom, which moves both
   * edges inward.
   */
  function AlignToReference(t: Transform, u: Bounds): (r: Result<GridSpec, MosaicError>)
    ensures r == Err(ZeroResolution) <==> t.a == 0.0 || t.e == 0.0
    ensures r.Ok? ==> r.value.width > 0 && r.value.height > 0
    ensures r.Ok? ==> r.value.resX == t.a && r.value.resY == Abs(t.e)
    ensures r.Ok? ==> OnGrid(r.value.left, t.c, t.a) && OnGrid(r.value.right, t.c, t.a)
    ensures r.Ok? ==> OnGrid(r.value.top, t.f, Abs(t.e)) && OnGrid(r.value.bottom, t.f, Abs(t.e))
    ensures r.Ok? && t.a > 0.0 ==> r.value.left <= u.left && u.right <= r.value.right
    ensures r.Ok? ==> r.value.top <= u.top && u.bottom <= r.value.bottom
    ensures r.Ok? && t.a > 0.0 ==> u.left - r.value.left < t.a && r.value.right - u.right < t.a
    ensures r.Ok? ==> u.top - r.value.top < Abs(t.e) && r.value.bottom - u.bottom < Abs(t.e)
  {
    Align(t, u, Floor, Ceil)
  }

  /**
   * The output size: width is ceil((maxx-ox)/rx) - floor((minx-ox)/rx) and
   * height is floor((maxy-oy)/ry) - ceil((miny-oy)/ry), exactly; the error is
   * raised iff one of them is not positive.
   */
  lemma AlignToReferenceSize(t: Transform, u: Bounds)
    requires t.a != 0.0 && t.e != 0.0
    ensures var w := CeilOf((u.right - t.c) / t.a) - ((u.left - t.c) / t.a).Floor;
            var h := ((u.top - t.f) / Abs(t.e)).Floor - CeilOf((u.bottom - t.f) / Abs(t.e));
            (AlignToReference(t, u) == Err(InvalidExtent) <==> w <= 0 || h <= 0) &&
            (AlignToReference(t, u).Ok? ==>
               AlignToReference(t, u).value.width == w && AlignToReference(t, u).value.height == h)
  {
    SpanOfSnapped(u.right, Ceil, u.left, Floor, t.c, t.a);
    SpanOfSnapped(u.top, Floor, u.bottom, Ceil, t.f, Abs(t.e));
  }

  /** With a positive pixel width the horizontal extent never yields a negative width. */
  lemma WidthNotNegative(t: Transform, u: Bounds)
    requires t.a > 0.0 && u.left <= u.right
    ensures CeilOf((u.right - t.c) / t.a) - ((u.left - t.c) / t.a).Floor >= 0
  {
    var q0, q1 := (u.left - t.c) / t.a, (u.right - t.c) / t.a;
    assert q0 * t.a == u.left - t.c && q1 * t.a == u.right - t.c;
    assert q0 <= q1;
  }

  /**
   * The vertical size can be negative for a non-empty union: a strip 0.6 pixels
   * tall that crosses no lattice line gives height -1 and the error.
   */
  lemma ThinStripIsRejected()
    ensures AlignToReference(Transform(1.0, -1.0, 0.0, 0.0), Bounds(0.0, 0.2, 1.0, 0.8)) == Err(InvalidExtent)
  {
    assert (0.8).Floor == 0;
    assert CeilOf(0.2) == 1;
    AlignToReferenceSize(Transform(1.0, -1.0, 0.0, 0.0), Bounds(0.0, 0.2, 1.0, 0.8));
  }

  /** Steps 1 to 3 of the builder as written: reference from the first raster, union, snap, size. */
  function PlanMosaic(rasters: seq<SourceRaster>): (r: Result<GridSpec, MosaicError>)
    ensures r == Err(NoRasters) <==> |rasters| == 0
    ensures r.Ok? ==> r.value.width > 0 && r.value.height > 0
    ensures r.Ok? ==> r.value.resX == rasters[0].transform.a && r.value.resY == Abs(rasters[0].transform.e)
    ensures r.Ok? && rasters[0].transform.a > 0.0 ==> forall k :: 0 <= k < |rasters| ==>
      r.value.left <= BoundsInRef(rasters[k], rasters[0].crs).left &&
      BoundsInRef(rasters[k], rasters[0].crs).right <= r.value.right
  {
    if |rasters| == 0 then Err(NoRasters)
    else
      var all := RefBounds(rasters, rasters[0].crs);
      assert forall k :: 0 <= k < |rasters| ==> all[k] == BoundsInRef(rasters[k], rasters[0].crs);
      AlignToReference(rasters[0].transform, UnionExtent(all))
  }

  /** A 2 x 3 reference tile on a 1 m grid with origin (0, 3). */
  const ReferenceTile: SourceRaster := SourceRaster("EPSG:32718", Transform(1.0, -1.0, 0.0, 3.0),
                                                    Bounds(0.0, 0.0, 2.0, 3.0), Bounds(0.0, 0.0, 2.0, 3.0))

  /** A second tile, in the same CRS, reaching half a pixel beyond the first above and below. */
  const TallTile: SourceRaster := SourceRaster("EPSG:32718", Transform(1.0, -1.0, 0.0, 3.5),
                                               Bounds(0.0, -0.5, 2.0, 3.5), Bounds(0.0, -0.5, 2.0, 3.5))

  lemma UnionOfExampleTiles()
    ensures UnionExtent(RefBounds([ReferenceTile, TallTile], "EPSG:32718")) == Bounds(0.0, -0.5, 2.0, 3.5)
  {
    assert RefBounds([ReferenceTile, TallTile], "EPSG:32718") == [ReferenceTile.bounds, TallTile.bounds];
  }

  lemma InwardSnapOfExample()
    ensures AlignToReference(ReferenceTile.transform, Bounds(0.0, -0.5, 2.0, 3.5))
         == Ok(GridSpec(0.0, 2.0, 3.0, 0.0, 2, 3, 1.0, 1.0))
  {
    assert (0.5).Floor == 0;
    assert (-3.5).Floor == -4;
    assert CeilOf(-3.5) == -3;
    assert (0.0).Floor == 0;
    assert CeilOf(2.0) == 2;
    RoundOfInteger(2);
    RoundOfInteger(3);
  }

  /**
   * Inward vertical snapping drops data: the second tile reaches half a
   * pixel above and below the mosaic grid, yet the plan succeeds with a
   * 2 x 3 grid whose top is 3 and bottom is 0.
   */
  lemma VerticalSnapDropsEdges()
    ensures PlanMosaic([ReferenceTile, TallTile]) == Ok(GridSpec(0.0, 2.0, 3.0, 0.0, 2, 3, 1.0, 1.0))
    ensures TallTile.bounds.top > 3.0 && TallTile.bounds.bottom < 0.0
  {
    UnionOfExampleTiles();
    InwardSnapOfExample();
  }

  /**
   * The evidently intended snapping: outward on both axes, ceil on the top
   * and floor on the bottom.
   */
  function AlignOutward(t: Transform, u: Bounds): (r: Result<GridSpec, MosaicError>)
    ensures r == Err(ZeroResolution) <==> t.a == 0.0 || t.e == 0.0
    ensures r.Ok? ==> r.value.width > 0 && r.value.height > 0
    ensures r.Ok? ==> OnGrid(r.value.left, t.c, t.a) && OnGrid(r.value.right, t.c, t.a)
    ensures r.Ok? ==> OnGrid(r.value.top, t.f, Abs(t.e)) && OnGrid(r.value.bottom, t.f, Abs(t.e))
    ensures r.Ok? && t.a > 0.0 ==> r.value.left <= u.left && u.right <= r.value.right
    ensures r.Ok? ==> r.value.resX == t.a && r.value.resY == Abs(t.e)
    ensures r.Ok? ==> r.value.bottom <= u.bottom && u.top <= r.value.top
    ensures r.Ok? && t.a > 0.0 ==> u.left - r.value.left < t.a && r.value.right - u.right < t.a
    ensures r.Ok? ==> r.value.top - u.top < Abs(t.e) && u.bottom - r.value.bottom < Abs(t.e)
  {
    Align(t, u, Ceil, Floor)
  }

  /** The corrected plan: the grid contains every raster vertically, and horizontally when a > 0. */
  function PlanMosaicOutward(rasters: seq<SourceRaster>): (r: Result<GridSpec, MosaicError>)
    ensures r == Err(NoRasters) <==> |rasters| == 0
    ensures r.Ok? && rasters[0].transform.a > 0.0 ==> forall k :: 0 <= k < |rasters| ==>
      r.value.left <= BoundsInRef(rasters[k], rasters[0].crs).left &&
      BoundsInRef(rasters[k], rasters[0].crs).right <= r.value.right
    ensures r.Ok? ==> forall k :: 0 <= k < |rasters| ==>
      r.value.bottom <= BoundsInRef(rasters[k], rasters[0].crs).bottom &&
      BoundsInRef(rasters[k], rasters[0].crs).top <= r.value.top
  {
    if |rasters| == 0 then Err(NoRasters)
    else
      var all := RefBounds(rasters, rasters[0].crs);
      assert forall k :: 0 <= k < |rasters| ==> all[k] == BoundsInRef(rasters[k], rasters[0].crs);
      AlignOutward(rasters[0].transform, UnionExtent(all))
  }

  lemma OutwardSnapOfExample()
    ensures AlignOutward(ReferenceTile.transform, Bounds(0.0, -0.5, 2.0, 3.5))
         == Ok(GridSpec(0.0, 2.0, 4.0, -1.0, 2, 5, 1.0, 1.0))
  {
    assert CeilOf(0.5) == 1;
    assert (-3.5).Floor == -4;
    assert (0.0).Floor == 0;
    assert CeilOf(2.0) == 2;
    RoundOfInteger(2);
    RoundOfInteger(5);
  }

  /** On the same two tiles the corrected plan keeps the half pixels: a 2 x 5 grid from -1 to 4. */
  lemma OutwardKeepsEdges()
    ensures PlanMosaicOutward([ReferenceTile, TallTile]) == Ok(GridSpec(0.0, 2.0, 4.0, -1.0, 2, 5, 1.0, 1.0))
  {
    UnionOfExampleTiles();
    OutwardSnapOfExample();
  }
}

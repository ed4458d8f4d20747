/**
 * The burned-area report of calcular_area_quemada.py: count the band-1 cells
 * equal to the burn code 1, leaving out cells equal to the declared no-data
 * value, and turn the count into square metres and hectares using both scale
 * factors of the raster's transform.
 */
module BurnedArea {
  import opened Basics

  /** Band 1 of a raster, as rows of cell values. */
  type Grid = seq<seq<int>>

  /** `h` rows of `w` cells each. */
  predicate IsRectangular(grid: Grid, h: nat, w: nat) {
    |grid| == h && forall i :: 0 <= i < h ==> |grid[i]| == w
  }

  /** All cells, row after row. */
  function Flatten(grid: Grid): seq<int> {
    if |grid| == 0 then [] else grid[0] + Flatten(grid[1..])
  }

  /** `np.ma.masked_equal(raster, nodata)`: a cell equal to the declared no-data value is masked. */
  predicate IsMasked(v: int, nodata: Option<real>) {
    nodata.Some? && v as real == nodata.value
  }

  /** A cell that `np.sum(raster == 1)` counts: equal to 1 and not masked. */
  predicate IsBurned(v: int, nodata: Option<real>) {
    v == 1 && !IsMasked(v, nodata)
  }

  /** Burned cells of one row. */
  function CountRow(row: seq<int>, nodata: Option<real>): (n: nat)
    ensures n <= |row|
  {
    if |row| == 0 then 0
    else (if IsBurned(row[0], nodata) then 1 else 0) + CountRow(row[1..], nodata)
  }

  /** `burned_pixels`: burned cells of the whole band. */
  function CountBurned(grid: Grid, nodata: Option<real>): (n: nat)
    ensures n <= |Flatten(grid)|
  {
    if |grid| == 0 then 0
    else CountRow(grid[0], nodata) + CountBurned(grid[1..], nodata)
  }

  /**
   * The count is the number of cells equal to 1, unless the no-data value is
   * 1 itself, in which case every such cell is masked and the count is 0.
   */
  lemma {:induction false} CountRowIsOccurrencesOfOne(row: seq<int>, nodata: Option<real>)
    ensures CountRow(row, nodata) == if nodata == Some(1.0) then 0 else multiset(row)[1]
  {
    if |row| > 0 {
      assert row == [row[0]] + row[1..];
      assert multiset(row) == multiset{row[0]} + multiset(row[1..]);
      CountRowIsOccurrencesOfOne(row[1..], nodata);
    }
  }

  /** The same over the whole band: no-data other than 1 changes nothing, no-data 1 counts nothing. */
  lemma {:induction false} CountBurnedIsOccurrencesOfOne(grid: Grid, nodata: Option<real>)
    ensures CountBurned(grid, nodata) == if nodata == Some(1.0) then 0 else multiset(Flatten(grid))[1]
  {
    if |grid| > 0 {
      CountRowIsOccurrencesOfOne(grid[0], nodata);
      CountBurnedIsOccurrencesOfOne(grid[1..], nodata);
      assert multiset(Flatten(grid)) == multiset(grid[0]) + multiset(Flatten(grid[1..]));
    }
  }

  /** A rectangular band of `h` rows and `w` columns has `h * w` cells. */
  lemma {:induction false} RectangularCellCount(grid: Grid, h: nat, w: nat)
    requires IsRectangular(grid, h, w)
    ensures |Flatten(grid)| == h * w
  {
    if h > 0 {
      assert IsRectangular(grid[1..], h - 1, w);
      RectangularCellCount(grid[1..], h - 1, w);
      assert (h - 1) * w + w == h * w;
    }
  }

  lemma AbsOfProduct(a: real, e: real)
    ensures Abs(a * e) == Abs(a) * Abs(e)
  {
    if a >= 0.0 && e >= 0.0 {
      ProductSigns(a, e);
    } else if a >= 0.0 {
      ProductSigns(a, -e);
      assert a * e == -(a * -e);
    } else if e >= 0.0 {
      ProductSigns(-a, e);
      assert a * e == -(-a * e);
    } else {
      ProductSigns(-a, -e);
      assert a * e == -a * -e;
    }
  }

  lemma ProductSigns(a: real, b: real)
    requires a >= 0.0 && b >= 0.0
    ensures a * b >= 0.0
  {
  }

  /** `pixel_area = abs(a * e)`: never negative. */
  function PixelArea(a: real, e: real): (r: real)
    ensures r >= 0.0
  {
    Abs(a * e)
  }

  /**
   * The pixel area uses both scale factors: it is the product of the pixel
   * width and the pixel height, whatever their signs, not the square of one.
   */
  lemma PixelAreaUsesBothScales(a: real, e: real)
    ensures PixelArea(a, e) == Abs(a) * Abs(e)
  {
    AbsOfProduct(a, e);
  }

  lemma HectaresRoundTrip(m2: real)
    ensures (m2 / 10000.0) * 10000.0 == m2
  {
  }

  /** `burned_area_m2 = burned_pixels * pixel_area`. */
  function AreaOf(pixels: nat, pixelArea: real): (m2: real)
    requires pixelArea >= 0.0
    ensures m2 >= 0.0
  {
    ProductSigns(pixels as real, pixelArea);
    pixels as real * pixelArea
  }

  /**
   * `masked_equal` masks every cell of the band: there is a cell, a no-data
   * value is declared and every cell equals it.
   */
  predicate FullyMasked(grid: Grid, nodata: Option<real>) {
    var cells := Flatten(grid);
    nodata.Some? && |cells| > 0 && forall k :: 0 <= k < |cells| ==> IsMasked(cells[k], nodata)
  }

  /** A band with a burned cell is not fully masked. */
  lemma BurnedCellIsNotMasked(grid: Grid, nodata: Option<real>)
    requires CountBurned(grid, nodata) > 0
    ensures !FullyMasked(grid, nodata)
  {
    CountBurnedIsOccurrencesOfOne(grid, nodata);
    var cells := Flatten(grid);
    assert 1 in multiset(cells);
    var k :| 0 <= k < |cells| && cells[k] == 1;
    assert !IsMasked(cells[k], nodata);
  }

  /** What the script reports. */
  datatype AreaReport = AreaReport(burnedPixels: nat, areaM2: real, areaHa: real)

  /**
   * Count, square metres (`count * pixel_area`) and hectares (`m2 / 10000`).
   * On a fully masked band numpy's masked sum is the masked constant, and so
   * are the area and the hectares computed from it: that outcome is `None`.
   */
  function Report(grid: Grid, nodata: Option<real>, a: real, e: real): (r: Option<AreaReport>)
    ensures r.None? <==> FullyMasked(grid, nodata)
    ensures r.Some? ==> r.value.burnedPixels == CountBurned(grid, nodata)
    ensures r.Some? ==> r.value.burnedPixels <= |Flatten(grid)|
    ensures r.Some? ==> r.value.areaM2 == AreaOf(r.value.burnedPixels, PixelArea(a, e))
    ensures r.Some? ==> r.value.areaM2 >= 0.0
    ensures r.Some? ==> r.value.areaHa * 10000.0 == r.value.areaM2
  {
    if FullyMasked(grid, nodata) then None
    else
      var n := CountBurned(grid, nodata);
      var m2 := AreaOf(n, PixelArea(a, e));
      HectaresRoundTrip(m2);
      Some(AreaReport(n, m2, m2 / 10000.0))
  }

  /** A band that is no-data everywhere has no numeric report. */
  lemma AllNoDataBandIsMasked()
    ensures Report([[0, 0], [0, 0]], Some(0.0), 30.0, -30.0) == None
  {
    var cells := Flatten([[0, 0], [0, 0]]);
    assert cells == [0, 0, 0, 0];
  }

  lemma {:induction false} CountRowAppend(r0: seq<int>, r1: seq<int>, nodata: Option<real>)
    ensures CountRow(r0 + r1, nodata) == CountRow(r0, nodata) + CountRow(r1, nodata)
  {
    if |r0| > 0 {
      assert (r0 + r1)[0] == r0[0];
      assert (r0 + r1)[1..] == r0[1..] + r1;
      CountRowAppend(r0[1..], r1, nodata);
    } else {
      assert r0 + r1 == r1;
    }
  }

  lemma {:induction false} CountBurnedAppend(g0: Grid, g1: Grid, nodata: Option<real>)
    ensures CountBurned(g0 + g1, nodata) == CountBurned(g0, nodata) + CountBurned(g1, nodata)
  {
    if |g0| > 0 {
      assert (g0 + g1)[0] == g0[0];
      assert (g0 + g1)[1..] == g0[1..] + g1;
      CountBurnedAppend(g0[1..], g1, nodata);
    } else {
      assert g0 + g1 == g1;
    }
  }

  lemma {:induction false} CountUniformRow(n: nat, v: int, nodata: Option<real>)
    ensures CountRow(seq(n, _ => v), nodata) == if IsBurned(v, nodata) then n else 0
  {
    if n > 0 {
      assert seq(n, _ => v)[1..] == seq(n - 1, _ => v);
      CountUniformRow(n - 1, v, nodata);
    }
  }

  lemma {:induction false} CountRepeatedRow(n: nat, row: seq<int>, nodata: Option<real>)
    ensures CountBurned(seq(n, _ => row), nodata) == n * CountRow(row, nodata)
  {
    if n > 0 {
      var rows := seq(n, _ => row);
      assert rows[0] == row;
      assert rows[1..] == seq(n - 1, _ => row);
      CountRepeatedRow(n - 1, row, nodata);
      var c := CountRow(row, nodata);
      assert (n - 1) * c + c == n * c;
    }
  }

  /**
   * A 10 x 10 block of burned cells surrounded by no-data (0) cells, at 30 m
   * pixels with a north-up transform (e = -30): 100 pixels, 90000 m2, 9 ha.
   */
  lemma TenByTenBlockAtThirtyMetres()
    ensures var border := seq(12, _ => 0);
            var inner := [0] + seq(10, _ => 1) + [0];
            var grid := [border] + seq(10, _ => inner) + [border];
            Report(grid, Some(0.0), 30.0, -30.0) == Some(AreaReport(100, 90000.0, 9.0))
  {
    var nodata := Some(0.0);
    var border := seq(12, _ => 0);
    var inner := [0] + seq(10, _ => 1) + [0];
    var block := seq(10, _ => inner);
    CountUniformRow(12, 0, nodata);
    CountUniformRow(10, 1, nodata);
    CountRowAppend([0], seq(10, _ => 1), nodata);
    CountRowAppend([0] + seq(10, _ => 1), [0], nodata);
    assert CountRow(inner, nodata) == 10;
    CountRepeatedRow(10, inner, nodata);
    CountBurnedAppend([border], block, nodata);
    CountBurnedAppend([border] + block, [border], nodata);
    assert CountBurned([border], nodata) == 0;
    assert PixelArea(30.0, -30.0) == 900.0;
    BurnedCellIsNotMasked([border] + block + [border], nodata);
  }
}

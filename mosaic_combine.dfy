/**
 * The combination stage of combinar_raster_v2.py (steps 4 to 6 and 9): two
 * zero-filled uint16 bands are built up tile by tile by elementwise maximum,
 * each tile's date band first masked by its own flag band, then the date band
 * is masked once more by the combined flag band, and the burned pixels of the
 * result are counted.
 *
 * The tiles are the outputs of nearest-neighbour resampling onto the mosaic
 * grid (`tmp_b1`, `tmp_b2`); the resampling itself is done by a library and is
 * an input here.
 */
module MosaicCombine {
  import opened Basics
  import opened MosaicGrid
  import BurnedArea

  /** A cell of a uint16 band. */
  type U16 = x: int | 0 <= x < 0x1_0000

  /** A band on the mosaic grid, as rows of cells. */
  type Band = seq<seq<U16>>

  /** One input raster resampled onto the mosaic grid: `tmp_b1` (burn flag) and `tmp_b2` (burn date). */
  datatype Tile = Tile(flag: Band, date: Band)

  predicate BandShaped(g: Band, h: nat, w: nat) {
    |g| == h && forall i :: 0 <= i < h ==> |g[i]| == w
  }

  predicate TileShaped(t: Tile, h: nat, w: nat) {
    BandShaped(t.flag, h, w) && BandShaped(t.date, h, w)
  }

  /** The cell at row `i`, column `j`; 0 (no data) outside the band. */
  function At(g: Band, i: nat, j: nat): U16 {
    if i < |g| && j < |g[i]| then g[i][j] else 0
  }

  /** `np.where(flag == 1, date, 0)` on one cell: a date survives only on a burned cell. */
  function MaskDate(flag: U16, date: U16): (d: U16)
    ensures flag != 1 ==> d == 0
    ensures flag == 1 ==> d == date
  {
    if flag == 1 then date else 0
  }

  /** Line 94 on a whole tile: its date band masked by its own flag band. */
  function MaskBand(flag: Band, date: Band): (masked: Band)
    requires |flag| == |date| && forall i :: 0 <= i < |flag| ==> |flag[i]| == |date[i]|
    ensures |masked| == |flag|
    ensures forall i :: 0 <= i < |flag| ==> |masked[i]| == |flag[i]|
    ensures forall i, j :: 0 <= i < |flag| && 0 <= j < |flag[i]| ==>
      j < |masked[i]| && masked[i][j] == MaskDate(flag[i][j], date[i][j])
  {
    seq(|flag|, i requires 0 <= i < |flag| =>
      seq(|flag[i]|, j requires 0 <= j < |flag[i]| => MaskDate(flag[i][j], date[i][j])))
  }

  /** Which of the two combined bands. */
  datatype Layer = FlagLayer | DateLayer

  /** What one tile offers a cell of a layer: its flag, or its date masked by its own flag. */
  function Contribution(t: Tile, layer: Layer, i: nat, j: nat): U16 {
    match layer
    case FlagLayer => At(t.flag, i, j)
    case DateLayer => MaskDate(At(t.flag, i, j), At(t.date, i, j))
  }

  /**
   * The running maximum after the given tiles, starting from the zero-filled
   * band: the largest contribution of any tile, or 0 when no tile offers more.
   */
  function MaxAt(tiles: seq<Tile>, layer: Layer, i: nat, j: nat): (m: U16)
    ensures forall k :: 0 <= k < |tiles| ==> Contribution(tiles[k], layer, i, j) <= m
    ensures m == 0 || exists k :: 0 <= k < |tiles| && Contribution(tiles[k], layer, i, j) == m
  {
    if |tiles| == 0 then 0
    else
      var prefix := tiles[..|tiles| - 1];
      assert forall k :: 0 <= k < |prefix| ==> prefix[k] == tiles[k];
      Max(MaxAt(prefix, layer, i, j), Contribution(tiles[|tiles| - 1], layer, i, j))
  }

  /** A maximum over tiles that all occur among `others` is at most the maximum over `others`. */
  lemma MaxAtMonotone(tiles: seq<Tile>, others: seq<Tile>, layer: Layer, i: nat, j: nat)
    requires forall t :: t in tiles ==> t in others
    ensures MaxAt(tiles, layer, i, j) <= MaxAt(others, layer, i, j)
  {
    var m := MaxAt(tiles, layer, i, j);
    if m != 0 {
      var k :| 0 <= k < |tiles| && Contribution(tiles[k], layer, i, j) == m;
      assert tiles[k] in tiles;
      var k' :| 0 <= k' < |others| && others[k'] == tiles[k];
    }
  }

  /** Reordering the tiles changes neither band of the mosaic. */
  lemma MaxAtPermutationInvariant(tiles: seq<Tile>, others: seq<Tile>, layer: Layer, i: nat, j: nat)
    requires multiset(tiles) == multiset(others)
    ensures MaxAt(tiles, layer, i, j) == MaxAt(others, layer, i, j)
  {
    assert forall t :: t in tiles <==> t in multiset(tiles);
    assert forall t :: t in others <==> t in multiset(others);
    MaxAtMonotone(tiles, others, layer, i, j);
    MaxAtMonotone(others, tiles, layer, i, j);
  }

  /**
   * With flags in {0, 1} the final mask changes nothing: wherever the
   * combined flag is not 1, no tile was burned there and the combined date is
   * already 0.
   */
  lemma FinalMaskRedundantForBinaryFlags(tiles: seq<Tile>, i: nat, j: nat)
    requires forall k :: 0 <= k < |tiles| ==> At(tiles[k].flag, i, j) <= 1
    ensures MaxAt(tiles, FlagLayer, i, j) != 1 ==> MaxAt(tiles, DateLayer, i, j) == 0
  {
    var f := MaxAt(tiles, FlagLayer, i, j);
    if f != 1 {
      assert f == 0;
      assert forall k :: 0 <= k < |tiles| ==> Contribution(tiles[k], DateLayer, i, j) == 0;
    }
  }

  /**
   * The final mask is needed once a flag above 1 occurs: a tile with flag 1
   * and date 100 and a tile with flag 2 combine to flag 2 with date 100, a date
   * on a cell whose flag is not 1.
   */
  lemma FinalMaskMatters()
    ensures var burned := Tile([[1]], [[100]]);
            var other := Tile([[2]], [[0]]);
            MaxAt([burned, other], FlagLayer, 0, 0) == 2 &&
            MaxAt([burned, other], DateLayer, 0, 0) == 100
  {
    var burned := Tile([[1]], [[100]]);
    var other := Tile([[2]], [[0]]);
    assert [burned, other][..1] == [burned];
    assert [burned][..0] == [];
  }

  /** A 4 x 4 tile burned (flag 1, the given date) on its west or east half only. */
  function HalfTile(west: bool, date: U16): Tile {
    Tile(seq(4, i => seq(4, j => if (j < 2) == west then 1 else 0)),
         seq(4, i => seq(4, j => if (j < 2) == west then date else 0)))
  }

  /**
   * Two tiles covering the west and east halves of a 4 x 4 grid with dates
   * 100 and 200: flag 1 everywhere, date 100 on the west and 200 on the east,
   * in either order.
   */
  lemma WestEastHalves()
    ensures var west, east := HalfTile(true, 100), HalfTile(false, 200);
            forall i, j | 0 <= i < 4 && 0 <= j < 4 ::
              MaxAt([west, east], FlagLayer, i, j) == 1 &&
              MaxAt([west, east], DateLayer, i, j) == (if j < 2 then 100 else 200) &&
              MaxAt([east, west], FlagLayer, i, j) == 1 &&
              MaxAt([east, west], DateLayer, i, j) == (if j < 2 then 100 else 200)
  {
    var west, east := HalfTile(true, 100), HalfTile(false, 200);
    assert [west, east][..1] == [west] && [east, west][..1] == [east];
    assert [west][..0] == [] && [east][..0] == [];
  }

  /** `mosaic_b1 = np.maximum(mosaic_b1, tmp_b1)` and the same for the masked date band (lines 94-97). */
  method MergeTile(b1: array2<U16>, b2: array2<U16>, t: Tile)
    requires b1 != b2
    requires b1.Length0 == b2.Length0 && b1.Length1 == b2.Length1
    requires TileShaped(t, b1.Length0, b1.Length1)
    modifies b1, b2
    ensures forall i, j :: 0 <= i < b1.Length0 && 0 <= j < b1.Length1 ==>
      b1[i, j] == Max(old(b1[i, j]), Contribution(t, FlagLayer, i, j)) &&
      b2[i, j] == Max(old(b2[i, j]), Contribution(t, DateLayer, i, j))
  {
    var maskedDate := MaskBand(t.flag, t.date);
    forall i, j | 0 <= i < b1.Length0 && 0 <= j < b1.Length1 {
      b1[i, j] := Max(b1[i, j], t.flag[i][j]);
    }
    forall i, j | 0 <= i < b2.Length0 && 0 <= j < b2.Length1 {
      b2[i, j] := Max(b2[i, j], maskedDate[i][j]);
    }
  }

  /** `mosaic_b2 = np.where(mosaic_b1 == 1, mosaic_b2, 0)` (line 100). */
  method FinalMask(b1: array2<U16>, b2: array2<U16>)
    requires b1 != b2
    requires b1.Length0 == b2.Length0 && b1.Length1 == b2.Length1
    modifies b2
    ensures forall i, j :: 0 <= i < b2.Length0 && 0 <= j < b2.Length1 ==>
      b2[i, j] == MaskDate(b1[i, j], old(b2[i, j]))
  {
    forall i, j | 0 <= i < b2.Length0 && 0 <= j < b2.Length1 {
      b2[i, j] := MaskDate(b1[i, j], b2[i, j]);
    }
  }

  /**
   * Lines 66-100: zero-filled bands, every tile merged in list order, then
   * the final mask. Each flag cell is the largest flag any tile has there;
   * each date cell is the largest self-masked date, kept only where the
   * combined flag is 1.
   */
  method CombineTiles(tiles: seq<Tile>, height: nat, width: nat) returns (b1: array2<U16>, b2: array2<U16>)
    requires forall k :: 0 <= k < |tiles| ==> TileShaped(tiles[k], height, width)
    ensures b1.Length0 == height && b1.Length1 == width
    ensures b2.Length0 == height && b2.Length1 == width
    ensures forall i, j :: 0 <= i < height && 0 <= j < width ==>
      b1[i, j] == MaxAt(tiles, FlagLayer, i, j) &&
      b2[i, j] == MaskDate(b1[i, j], MaxAt(tiles, DateLayer, i, j))
  {
    b1 := new U16[height, width]((i, j) => 0);
    b2 := new U16[height, width]((i, j) => 0);
    var k := 0;
    while k < |tiles|
      invariant 0 <= k <= |tiles|
      invariant forall i, j :: 0 <= i < height && 0 <= j < width ==>
        b1[i, j] == MaxAt(tiles[..k], FlagLayer, i, j) &&
        b2[i, j] == MaxAt(tiles[..k], DateLayer, i, j)
    {
      MergeTile(b1, b2, tiles[k]);
      assert tiles[..k + 1][..k] == tiles[..k];
      assert tiles[..k + 1][k] == tiles[k];
      k := k + 1;
    }
    assert tiles[..|tiles|] == tiles;
    FinalMask(b1, b2);
  }

  /** The cells of a band held in an array, as rows. */
  function Rows(b: array2<U16>): (rows: Band)
    reads b
    ensures BandShaped(rows, b.Length0, b.Length1)
    ensures forall i, j :: 0 <= i < b.Length0 && 0 <= j < b.Length1 ==> rows[i][j] == b[i, j]
  {
    seq(b.Length0, i reads b requires 0 <= i < b.Length0 =>
      seq(b.Length1, j reads b requires 0 <= j < b.Length1 => b[i, j]))
  }

  /** `pixel_area_ha`: hectares per pixel at `rx` by `ry` metres. */
  function PixelHectares(rx: real, ry: real): (ha: real)
    ensures ha * 10000.0 == rx * ry
  {
    (rx * ry) / 10000.0
  }

  /** `burned_ha = burned_pixels * pixel_area_ha`: square metres over 10000. */
  function HectaresOf(pixels: nat, rx: real, ry: real): (ha: real)
    ensures ha * 10000.0 == pixels as real * (rx * ry)
  {
    var pixelHa := PixelHectares(rx, ry);
    assert (pixels as real * pixelHa) * 10000.0 == pixels as real * (pixelHa * 10000.0);
    pixels as real * pixelHa
  }

  /**
   * `burned_pixels = np.count_nonzero(b1 == 1)` (line 132): the cells of the
   * flag band equal to 1, at most width x height of them.
   */
  function MosaicBurnedPixels(b1: array2<U16>): (n: nat)
    reads b1
    ensures n == multiset(BurnedArea.Flatten(Rows(b1)))[1]
    ensures n <= b1.Length0 * b1.Length1
  {
    var rows := Rows(b1);
    BurnedArea.RectangularCellCount(rows, b1.Length0, b1.Length1);
    BurnedArea.CountBurnedIsOccurrencesOfOne(rows, None);
    BurnedArea.CountBurned(rows, None)
  }

  /**
   * The whole builder as written: the grid plan from the rasters, then the
   * combination of their resampled tiles on that grid. On an error no band is
   * built (the arrays are empty).
   */
  method BuildMosaic(rasters: seq<SourceRaster>, resampled: seq<Tile>)
    returns (plan: Result<GridSpec, MosaicError>, b1: array2<U16>, b2: array2<U16>)
    requires |resampled| == |rasters|
    requires PlanMosaic(rasters).Ok? ==> forall k :: 0 <= k < |resampled| ==>
      TileShaped(resampled[k], PlanMosaic(rasters).value.height, PlanMosaic(rasters).value.width)
    ensures plan == PlanMosaic(rasters)
    ensures plan.Ok? ==> b1.Length0 == plan.value.height && b1.Length1 == plan.value.width
    ensures plan.Ok? ==> b2.Length0 == plan.value.height && b2.Length1 == plan.value.width
    ensures plan.Ok? ==> forall i, j :: 0 <= i < b1.Length0 && 0 <= j < b1.Length1 ==>
      b1[i, j] == MaxAt(resampled, FlagLayer, i, j) &&
      b2[i, j] == MaskDate(b1[i, j], MaxAt(resampled, DateLayer, i, j))
  {
    if |rasters| == 0 {
      plan := Err(NoRasters);
      b1 := new U16[0, 0]((i, j) => 0);
      b2 := new U16[0, 0]((i, j) => 0);
      return;
    }
    var all := CollectBounds(rasters, rasters[0].crs);
    plan := AlignToReference(rasters[0].transform, UnionExtent(all));
    if plan.Err? {
      b1 := new U16[0, 0]((i, j) => 0);
      b2 := new U16[0, 0]((i, j) => 0);
      return;
    }
    b1, b2 := CombineTiles(resampled, plan.value.height, plan.value.width);
  }
}

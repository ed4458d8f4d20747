# Burn-mapping batch scripts: verified model of their own logic

This project models the logic of a set of GIS batch scripts that map burned
areas in Peru. The scripts mostly call raster, vector and Earth Engine
libraries. Three pieces of logic are their own, and those are modelled here:

- **Mosaic builder** (`combinar_raster_v2.py`). It builds a yearly burn
  mosaic from several two-band rasters: band 1 is a burn flag (1 = burned)
  and band 2 a burn date. The builder works in four steps:
  - it takes the union of the rasters' extents in the CRS of the first
    raster;
  - it snaps that union to the first raster's pixel lattice and derives the
    output width and height, raising an error when either is not positive;
  - it combines the resampled tiles into two zero-filled uint16 bands by
    cellwise maximum, masking each tile's dates by its own flags;
  - it masks the dates once more by the combined flags, then reports the
    burned pixel count and hectares.

  Modules `MosaicGrid` (steps 1–3) and `MosaicCombine` (steps 4–6 and 9).
- **Burned-area report** (`calcular_area_quemada.py`). It counts the band-1
  cells equal to 1, leaving out cells equal to the declared no-data value. It
  converts the count to m² with the pixel area |a·e| of the transform, then to
  hectares. Module `BurnedArea`.
- **FIRMS footprints** (`generar_puntos_cuadrados_FIRMS.py`). It converts the
  fire-detection `confidence` column: the letter codes h/n/l become 80/55/30,
  then the whole column goes through `pd.to_numeric`, which raises on any
  value that is not a number. It also draws a square around each detection,
  1000 m for MODIS and 375 m for VIIRS and every other instrument. Module
  `Firms`.

`Basics` holds the shared `Option`/`Result` types, `Abs` and `Max`.

Modelling choices:

- Coordinates, resolutions and areas are exact `real`s. Python's `math.floor`
  is `.Floor`, `math.ceil` is `-Floor(-x)`, and `round` is round-half-even.
- The Python exceptions become `Result` errors:
  - the `RuntimeError` for a non-positive size is `InvalidExtent`;
  - a zero resolution (`ZeroDivisionError` in `snap_to_grid`) is
    `ZeroResolution`;
  - an empty raster list (`IndexError` on `raster_files[0]`) is `NoRasters`;
  - the `ValueError` of `pd.to_numeric` is `Err(k)`, where `k` is the index
    of the first value that is not a number.
- The mosaic bands are `array2<U16>` buffers. Each numpy whole-array
  operation is a `forall` statement, and the per-tile loop is a `while` loop
  whose invariant ties each cell to the specification function
  `MosaicCombine.MaxAt`.

Where the code and its design intent disagree, the model follows the code.
The grid is meant to contain the union extent on both axes, but the code
snaps the vertical axis inward (see Findings). Unknown confidence codes are
meant to fail the numeric conversion, but the code lets any text that is a
number through (`Firms.MixedColumnConverts`).

## Model

| member | source | states |
|---|---|---|
| MosaicGrid.SnapToGrid | combinar_raster_v2.py:48-52 | the result lies on the lattice through `origin` with step `res`; with res > 0, floor mode gives s <= x and x - s < res, and ceil mode gives x <= s and s - x < res |
| MosaicGrid.UnionExtent | combinar_raster_v2.py:42-45 | the union's left/bottom are at most, and its right/top at least, those of every input; each of the four bounds is attained by some input |
| MosaicGrid.CollectBounds | combinar_raster_v2.py:31-41 | the appending loop yields, for each raster in order, its bounds if its CRS is the reference CRS and its reprojected bounds otherwise |
| MosaicGrid.AlignToReference | combinar_raster_v2.py:54-62 | fails with ZeroResolution iff a = 0 or e = 0; on success the size is positive, the resolution is (a, abs e) and all four aligned bounds lie on the reference lattice; the horizontal extent contains the union with less than one pixel of margin on each side (a > 0), while top <= maxy and bottom >= miny (inward), each less than one pixel inside |
| MosaicGrid.AlignToReferenceSize | combinar_raster_v2.py:54-62 | width = ceil((maxx-ox)/rx) - floor((minx-ox)/rx) and height = floor((maxy-oy)/ry) - ceil((miny-oy)/ry) exactly; the error is raised iff width <= 0 or height <= 0 |
| MosaicGrid.SpanOfSnapped | combinar_raster_v2.py:59-60 | `round` of the span between two snapped values over the resolution is exactly the difference of their lattice indices |
| MosaicGrid.WidthNotNegative | combinar_raster_v2.py:59 | with rx > 0 and minx <= maxx, the width is never negative |
| MosaicGrid.ThinStripIsRejected | combinar_raster_v2.py:60-62 | a union 0.6 pixels tall that crosses no lattice line gets height -1 and raises the error |
| MosaicGrid.PlanMosaic | combinar_raster_v2.py:20-62 | NoRasters iff the list is empty; on success the size is positive, the resolution is the first raster's, and, when the first raster's pixel width a > 0, every raster's bounds (in the reference CRS) lie inside the grid horizontally |
| MosaicGrid.VerticalSnapDropsEdges | combinar_raster_v2.py:56-57 | two tiles, the second half a pixel taller above and below, plan to a 2 x 3 grid from 0 to 3 that cuts off both half pixels |
| MosaicGrid.AlignOutward | combinar_raster_v2.py:54-62 | corrected snapping: the same error cases, positive size, resolution and lattice membership as AlignToReference, but the grid contains the union vertically, with less than one pixel of margin above and below, and horizontally when a > 0, with less than one pixel of margin on each side |
| MosaicGrid.PlanMosaicOutward | combinar_raster_v2.py:20-62 | corrected plan: every raster's bounds lie inside the grid vertically, and horizontally when the first raster's pixel width a > 0 |
| MosaicGrid.OutwardKeepsEdges | combinar_raster_v2.py:54-62 | the corrected plan gives a 2 x 5 grid from -1 to 4 for the same two tiles |
| MosaicCombine.MaskDate | combinar_raster_v2.py:94 | a date survives exactly where the flag is 1; it is 0 elsewhere |
| MosaicCombine.MaskBand | combinar_raster_v2.py:94 | the masked band has the tile's shape, and each cell is its date masked by its own flag |
| MosaicCombine.MaxAt | combinar_raster_v2.py:67-68 | the running maximum of a cell over the tiles is at least every tile's contribution, and it is 0 or equal to some tile's contribution (the zero-filled start) |
| MosaicCombine.MaxAtMonotone | combinar_raster_v2.py:96-97 | the maximum over tiles that all occur in another list is at most that list's maximum |
| MosaicCombine.MaxAtPermutationInvariant | combinar_raster_v2.py:71-97 | reordering the tiles (same multiset) leaves both combined bands unchanged |
| MosaicCombine.FinalMaskRedundantForBinaryFlags | combinar_raster_v2.py:94-100 | when every flag is 0 or 1, the combined date is already 0 wherever the combined flag is not 1 |
| MosaicCombine.FinalMaskMatters | combinar_raster_v2.py:96-100 | a flag-1/date-100 tile and a flag-2 tile combine to flag 2 with date 100, so without the final mask a date would sit on a cell not flagged 1 |
| MosaicCombine.WestEastHalves | combinar_raster_v2.py:71-100 | tiles burned on the west half (date 100) and the east half (date 200) of a 4 x 4 grid give flag 1 everywhere and dates 100 west and 200 east, in either order |
| MosaicCombine.MergeTile | combinar_raster_v2.py:94-97 | every flag cell becomes the max of its old value and the tile's flag; every date cell the max of its old value and the tile's self-masked date |
| MosaicCombine.FinalMask | combinar_raster_v2.py:100 | every date cell is kept where the flag cell is 1 and set to 0 elsewhere |
| MosaicCombine.CombineTiles | combinar_raster_v2.py:66-100 | bands of height x width; each flag cell is the max flag over all tiles (0 if none), each date cell the max self-masked date, kept only where the combined flag is 1 |
| MosaicCombine.BuildMosaic | combinar_raster_v2.py:20-100 | the plan is PlanMosaic of the rasters; on success the bands have the planned size and the cells CombineTiles promises |
| MosaicCombine.MosaicBurnedPixels | combinar_raster_v2.py:132 | the count is the number of flag cells equal to 1, at most width x height |
| MosaicCombine.PixelHectares | combinar_raster_v2.py:131 | hectares per pixel times 10000 is rx x ry |
| MosaicCombine.HectaresOf | combinar_raster_v2.py:133 | burned hectares times 10000 is pixels x rx x ry |
| BurnedArea.CountRow | calcular_area_quemada.py:23 | the burned cells of a row are at most its length |
| BurnedArea.CountBurned | calcular_area_quemada.py:23 | the burned cells of the band are at most its number of cells |
| BurnedArea.CountRowIsOccurrencesOfOne | calcular_area_quemada.py:14-23 | a row's count is its number of cells equal to 1, or 0 when the no-data value is 1 |
| BurnedArea.CountBurnedIsOccurrencesOfOne | calcular_area_quemada.py:14-23 | with no no-data value, or one other than 1, the count is the number of cells equal to 1; with no-data 1 it is 0 (Report turns a band that is all no-data into the masked result) |
| BurnedArea.RectangularCellCount | calcular_area_quemada.py:9 | a band of h rows of w cells has h x w cells |
| BurnedArea.CountRowAppend | calcular_area_quemada.py:23 | the count of two joined rows is the sum of their counts |
| BurnedArea.CountBurnedAppend | calcular_area_quemada.py:23 | the count of two stacked bands is the sum of their counts |
| BurnedArea.CountUniformRow | calcular_area_quemada.py:23 | a row of n equal cells counts n if that value is burned and 0 otherwise |
| BurnedArea.CountRepeatedRow | calcular_area_quemada.py:23 | n copies of a row count n times the row's count |
| BurnedArea.PixelArea | calcular_area_quemada.py:20 | the pixel area is never negative |
| BurnedArea.PixelAreaUsesBothScales | calcular_area_quemada.py:20 | the pixel area is abs(a) x abs(e): both scale factors, whatever their signs |
| BurnedArea.AbsOfProduct | calcular_area_quemada.py:20 | abs(a x e) = abs(a) x abs(e) |
| BurnedArea.AreaOf | calcular_area_quemada.py:26 | the burned area in m² is never negative |
| BurnedArea.Report | calcular_area_quemada.py:14-29 | the report is the masked constant (None) exactly when a no-data value is declared and every cell of a non-empty band equals it; otherwise its count is the burned-cell count, at most the number of cells, m² is count x pixel area and never negative, and hectares x 10000 = m² |
| BurnedArea.BurnedCellIsNotMasked | calcular_area_quemada.py:17-23 | a band with a burned cell is never fully masked |
| BurnedArea.AllNoDataBandIsMasked | calcular_area_quemada.py:15-29 | a 2 x 2 band of no-data 0 cells gives the masked report, not a zero count |
| BurnedArea.TenByTenBlockAtThirtyMetres | calcular_area_quemada.py:20-29 | a 10 x 10 burned block inside a no-data border at 30 m pixels (e = -30) reports 100 pixels, 90000 m² and 9 ha (not the masked constant) |
| Firms.ReplaceCode | generar_puntos_cuadrados_FIRMS.py:19-23 | text 'h', 'n' or 'l' becomes the number 80, 55 or 30; any other cell is left unchanged |
| Firms.ReplaceConfidence | generar_puntos_cuadrados_FIRMS.py:19-23 | the column keeps its length and each cell is replaced as ReplaceCode says |
| Firms.ReplaceConfidenceIdempotent | generar_puntos_cuadrados_FIRMS.py:19-23 | replacing twice gives the same column as replacing once |
| Firms.ParsedTextIsNumeric | generar_puntos_cuadrados_FIRMS.py:24 | text that converts to a number holds only digits, at most one point and a leading sign, so any other character or a second point makes the conversion fail |
| Firms.ParseNatDigits | generar_puntos_cuadrados_FIRMS.py:24 | the decimal digits of a whole number convert back to that number |
| Firms.ParseSignedDecimal | generar_puntos_cuadrados_FIRMS.py:24 | the digits of a whole number, a point and fraction digits convert to whole + fraction / 10^(fraction length), and after a minus to its negation |
| Firms.ParseMinusTwelveAndAHalf | generar_puntos_cuadrados_FIRMS.py:24 | "-12.5" converts to -12.5 |
| Firms.ParseDecimal | generar_puntos_cuadrados_FIRMS.py:24 | text that parses is non-empty, and a negative result needs a leading minus; `Firms.ParsedTextIsNumeric`, `Firms.ParseNatDigits` and `Firms.ParseSignedDecimal` give its accepted characters and its round trips |
| Firms.ToNumber | generar_puntos_cuadrados_FIRMS.py:24 | a numeric cell converts to itself |
| Firms.ToNumericColumn | generar_puntos_cuadrados_FIRMS.py:24 | succeeds iff every cell converts, with each value that cell's number; otherwise fails at the first cell that does not convert |
| Firms.ConvertConfidence | generar_puntos_cuadrados_FIRMS.py:19-24 | the conversion succeeds iff every cell is a letter code, a number or numeric text; on success it has one value per cell: codes become 80/55/30 and every other cell its own number |
| Firms.UnknownCodeRaises | generar_puntos_cuadrados_FIRMS.py:19-24 | a cell that is neither a code nor a number makes the conversion raise at that cell when every earlier cell converts |
| Firms.MixedColumnConverts | generar_puntos_cuadrados_FIRMS.py:19-24 | the column h, n, l, "72", 100 converts to 80, 55, 30, 72, 100 |
| Firms.SideLength | generar_puntos_cuadrados_FIRMS.py:54-59 | MODIS gives 1000; VIIRS and every other instrument give 375 |
| Firms.CreateDynamicSquare | generar_puntos_cuadrados_FIRMS.py:53-62 | the box is centred on the point, its width and height are the instrument's side length, and it strictly contains the point |
| Firms.SquareFollowsPoint | generar_puntos_cuadrados_FIRMS.py:53-62 | two detections by the same instrument get squares of the same size, shifted by the offset between the points |
| Firms.DynamicSquares | generar_puntos_cuadrados_FIRMS.py:65 | one square per point, in order, each being that point's CreateDynamicSquare: centred on it, strictly containing it, with width and height the instrument's side length |
| Firms.ModisAndViirsSquares | generar_puntos_cuadrados_FIRMS.py:53-62 | a MODIS detection gets a 1000 m box and a VIIRS detection a 375 m box around the same point |

## Left out

- Reprojection and resampling are library CRS math, so they are inputs here:
  - `transform_bounds` (combinar_raster_v2.py:38) is `SourceRaster.boundsInRefCrs`;
  - `reproject` with nearest-neighbour resampling (combinar_raster_v2.py:79-92) is the per-tile `Tile` bands `tmp_b1`/`tmp_b2`.
- `from_origin` (combinar_raster_v2.py:64) is a library constructor. The `GridSpec` holds its inputs: the aligned left and top and the resolution.
- Raster I/O is not modelled: `rasterio.open`, band reads, the GeoTIFF profile, tiling and compression, writing, overviews and tags (combinar_raster_v2.py:103-127, calcular_area_quemada.py:8-11), and all prints.
- In `calcular_area_quemada.py` the no-data value is `Option<real>`. A NaN no-data value is not modelled, because `masked_equal` with NaN matches nothing. The masked constant that numpy's sum gives on a fully masked band (printed as `--`) is the `None` report.
- Band cells in `calcular_area_quemada.py` are integers (`BurnedArea.Grid`). A float raster is not modelled, so neither is a band whose cells all equal a no-data value that is not a whole number (numpy's masked result there).
- `SourceRaster.crs` is a canonical CRS identity, so string equality is CRS equality. The test at combinar_raster_v2.py:37 compares rasterio `CRS` objects by meaning. Working out that identity from WKT or EPSG text is rasterio's and is not modelled.
- `snap_to_grid` returns `None` for a mode other than 'floor' or 'ceil'. That branch is unreachable, because every call passes one of the two literals, so `SnapMode` has just those two values.
- Floating point is not modelled. `int(round(...))` at combinar_raster_v2.py:59-60 is round-half-even on exact reals; the quotient is always an integer there (`MosaicGrid.SpanOfSnapped`).
- Firms.ToNumber: `pd.to_numeric` is modelled on `[sign] digits [. digits]`. It does not cover exponents, surrounding whitespace, `inf`/`nan`, or missing cells (`NaN` from the CSV reader), which pandas also accepts.
- Vector geometry is library work and is not modelled: point construction, `to_crs`, `union_all`, `within` and `overlay` (generar_puntos_cuadrados_FIRMS.py:27-36, 49-50, 68). Neither are CSV and shapefile I/O. `FirePoint` takes the UTM coordinates as given.
- `Determinacion_de_puntos_quema_QGIS.py` is not modelled. It is a sequence of QGIS processing calls plus a cancel check.
- `ultima_version_distritos_GEE.js` is not modelled. It is Earth Engine server-side image processing and exports.
- Only `MosaicCombine.CombineTiles` and `MosaicCombine.BuildMosaic` allocate fresh bands. Their contracts do not also state that the results are fresh.

## Findings

| source | as written | input that shows it | evidently intended | confidence | as-written member | corrected member |
|---|---|---|---|---|---|---|
| combinar_raster_v2.py:56-57 | `top_aligned` floors `maxy` and `bottom_aligned` ceils `miny`, so the grid shrinks vertically to the lattice lines inside the union | tiles with origin (0, 3) at 1 m, one spanning y 0–3 and one spanning y -0.5–3.5: the grid runs from 0 to 3, cutting half a pixel off the second tile at the top and the bottom | snap outward on both axes (ceil the top, floor the bottom), so the grid contains every tile, as it does horizontally | medium, not executed | MosaicGrid.VerticalSnapDropsEdges | MosaicGrid.PlanMosaicOutward |

`MosaicCombine.BuildMosaic` keeps the as-written plan (`MosaicGrid.PlanMosaic`), because it models the script.
The combination (`MosaicCombine.CombineTiles`) takes only the grid size, so it applies unchanged to the corrected plan.

# Minecraft-Toolbox core, modelled in Dafny

This project models the logic at the heart of the Minecraft-Toolbox plugin, and proves what it does.

- **`PolygonData`** is the point-in-polygon engine. It takes a closed path of block cells and a bounding box. It moves the path so the box corner is (0, 0) and indexes the path by column. It then fills a grid of cell states with a row-by-row ray-casting sweep. When an edge lies along the ray, it falls back once to a column sweep. Finally it extracts the inside cells in world coordinates.
  - `PolygonSweep.dfy` states the sweeps as functions over values and proves what they guarantee.
  - `PolygonData.dfy` is the class, with its grid as a 2-D array written in place. Each method is proved equal to the matching function.
- **The bounding accumulators** are `BoundingShapes.dfy` (inclusive sizes, 2D and 3D) and `BoundingBox.dfy` (the older box with exclusive sizes, which `PolygonData` also uses). Their `bind` methods update fields in place.
- **`PointKt`** and its row-major order are in `Points.dfy`. **`groupBySet`** and `coord()` are in `Ext.dfy`.
- **The ASCII grid readers and printers of the two test files** are `PolygonTestGrid.dfy` and `PathGrid.dfy`, with the layout they share in `GridText.dfy`. Their round trips are proved for all inputs. The test grids are worked through as lemmas.
- **The `terraform` commands** are in `Terraform.dfy`: height checks, prism parsing, the distance check, and the block sweeps, each returning the blocks it would edit.
- **`prettyJoin` and `numberedList`** are in `TextHelper.dfy`.
- **The command tree** (`MctNode`) and the contexts that travel down it (`Context`) are in `MctNode.dfy` and `Context.dfy`.
- **The compass tracker bookkeeping** of `CompassHelper` is in `Compass.dfy`, with player metadata as maps.
- **Supporting modules:**
  - `Text.dfy` covers the Kotlin string functions the core uses.
  - `Decimal.dfy` covers `Int.toString` and `toIntOrNull` on 32-bit values.
  - `Wrappers.dfy` holds `Option` and `Result`.

Thrown exceptions and `fail(...)` messages are modelled as the `Err` case of a `Result`.

The test files expect two outcomes from `pointsInPolygon()` that the code does not produce (see "## Findings"):
- `complexExtract1` expects fourteen inside points on `path1`.
- `complexParseAll` runs `checkParsePolygon`, which calls `pointsInPolygon()`, on `path1` and then on `path2`, and expects neither to throw. It fails first on `path1`.

Both paths turn a corner inside the box: at (7, 4) on `path1` and at (5, 1) on `path2`. Such a cell is an edge with edges both to its right and below. Both sweeps defer on it, so no sweep ever resolves it. Hence the resolve fails on any frame with such a corner (`PolygonSweep.CornerFails`, `PolygonTestGrid.PointsOfCornered`). This is also shown for each path: `PolygonTestGrid.ComplexExtract1` for `path1`, the first path `complexParseAll` checks, and `PolygonTestGrid.ComplexParsePath2` for `path2`.

What the tests ask for is stated on its own terms. `PolygonTestGrid.Enclosed` holds for a cell that some set of free cells fences in: that set avoids the box's border, and every side-neighbour of one of its cells is on the path or in the set. On `path1`, the enclosed cells are exactly the fourteen points `complexExtract1` lists, and exactly the cells its grid marks '-' (`PolygonTestGrid.Extract1Enclosed`).

## Model

| member | source | states |
|---|---|---|
| Points.Compare | core/src/main/kotlin/ca/allanwang/minecraft/toolbox/core/PointKt.kt:6-7 | compareTo is zero exactly for equal points, negative exactly when the first point is on an earlier row or earlier in the same row, positive in the mirror case |
| Points.CompareInt | core/src/main/kotlin/ca/allanwang/minecraft/toolbox/core/PointKt.kt:6-7 | Int.compareTo answers -1, 0 or 1, negative exactly when a < b and zero exactly when a == b |
| Points.CompareAntisymmetric | core/src/main/kotlin/ca/allanwang/minecraft/toolbox/core/PointKt.kt:6-7 | swapping the two points negates the comparison |
| Points.CompareTransitive | core/src/main/kotlin/ca/allanwang/minecraft/toolbox/core/PointKt.kt:6-7 | a before b and b before c puts a before c, so compareTo is a total order |
| Points.StrictlySortedUnique | core/src/main/kotlin/ca/allanwang/minecraft/toolbox/core/PointKt.kt:6-7 | two row-major strictly sorted lists with the same elements are the same list |
| Points.Format | core/src/main/kotlin/ca/allanwang/minecraft/toolbox/core/PointKt.kt:4 | the rendering is bracketed: it starts with '(' and ends with ')' |
| Points.FormatInjective | core/src/main/kotlin/ca/allanwang/minecraft/toolbox/core/PointKt.kt:4 | equal renderings "(x, y)" come from equal coordinates |
| Points.ToStringInjective | core/src/main/kotlin/ca/allanwang/minecraft/toolbox/core/PointKt.kt:4 | toString tells distinct points apart |
| Decimal.IntToString | core/src/main/kotlin/ca/allanwang/minecraft/toolbox/core/PointKt.kt:4 | the string template of an Int: digits, with a leading '-' exactly for negative values |
| Decimal.ParseIntOfIntToString | plugin/src/main/kotlin/ca/allanwang/minecraft/toolbox/node/Terraform.kt:109 | toIntOrNull of an Int's rendering gives that Int back |
| Decimal.IntToStringInjective | core/src/main/kotlin/ca/allanwang/minecraft/toolbox/core/PointKt.kt:4 | distinct Ints render differently |
| Decimal.ParseInt | plugin/src/main/kotlin/ca/allanwang/minecraft/toolbox/node/Terraform.kt:109 | toIntOrNull only answers values in the 32-bit range, and only for text starting with a sign or a digit |
| Decimal.ParseIntMeaning | plugin/src/main/kotlin/ca/allanwang/minecraft/toolbox/node/Terraform.kt:109 | toIntOrNull answers a number exactly when the text is one or more digits, optionally after one '-' or '+', and its value fits in an Int; the number is then that value, read positionally and negated after '-' |
| Decimal.DigitsValuePositional | plugin/src/main/kotlin/ca/allanwang/minecraft/toolbox/node/Terraform.kt:109 | reading a digit run left to right gives the sum of each digit times ten to the number of digits after it |
| Decimal.ParseIntExamples | plugin/src/main/kotlin/ca/allanwang/minecraft/toolbox/node/Terraform.kt:109 | "+5" is 5, "007" is 7, "-12" is -12; "-", "1a" and "" are null |
| Decimal.ParseIntOutOfRange | plugin/src/main/kotlin/ca/allanwang/minecraft/toolbox/node/Terraform.kt:109 | the rendering of a value outside the 32-bit range parses to null |
| Ext.Coord | core/src/main/kotlin/ca/allanwang/minecraft/toolbox/core/Ext.kt:28 | coord() is "(", x's decimal rendering, ", ", y's decimal rendering and ")", the same text as PointKt's toString; no other point has that rendering |
| Ext.CoordInjective | core/src/main/kotlin/ca/allanwang/minecraft/toolbox/core/Ext.kt:28 | two points with the same coord() are the same point |
| Ext.GroupBySet | core/src/main/kotlin/ca/allanwang/minecraft/toolbox/core/Ext.kt:5-10 | a key is present exactly when some element has it; v is under k exactly when some element has key k and value v; no set is empty; keys come in first-occurrence order |
| Ext.GroupBySetTo | core/src/main/kotlin/ca/allanwang/minecraft/toolbox/core/Ext.kt:15-26 | groupBySetTo keeps every old entry and only adds to it; a new key is present exactly when some element has it and its set is not empty; membership of values as for groupBySet; old keys keep their order and new keys are appended in first-occurrence order |
| Ext.KeyOrderSpec | core/src/main/kotlin/ca/allanwang/minecraft/toolbox/core/Ext.kt:9 | the key order of a LinkedHashMap: earlier keys keep their place, new keys follow in order of their first occurrence, without repeats |
| Ext.InsertAllKeys | core/src/main/kotlin/ca/allanwang/minecraft/toolbox/core/Ext.kt:20-24 | after inserting the elements a key is present exactly when it was before or some element has it |
| Ext.InsertAllValues | core/src/main/kotlin/ca/allanwang/minecraft/toolbox/core/Ext.kt:20-24 | after inserting, v is under k exactly when it was before or some element has key k and value v |
| Ext.InsertAllGrows | core/src/main/kotlin/ca/allanwang/minecraft/toolbox/core/Ext.kt:20-24 | inserting keeps every old key and set, and never leaves a new key with an empty set |
| Ext.InsertAllOrder | core/src/main/kotlin/ca/allanwang/minecraft/toolbox/core/Ext.kt:20-24 | inserting keeps the map well formed, with its key order extended by first occurrence |
| Ext.LinkedSetMap.Get | core/src/main/kotlin/ca/allanwang/minecraft/toolbox/core/Ext.kt:20-24 | a missing key reads as the empty set |
| BoundingShapes.Rect.Extend | core/src/main/kotlin/ca/allanwang/minecraft/toolbox/core/BoundingShapes.kt:15-20 | bind takes in the point, never shrinks, is the smallest box that does both, keeps min <= max, and leaves a box already holding the point unchanged |
| BoundingShapes.Rect.SizeX | core/src/main/kotlin/ca/allanwang/minecraft/toolbox/core/BoundingShapes.kt:22 | the inclusive width is at least 1 exactly when minX <= maxX |
| BoundingShapes.Rect.SizeY | core/src/main/kotlin/ca/allanwang/minecraft/toolbox/core/BoundingShapes.kt:23 | the inclusive height is at least 1 exactly when minY <= maxY |
| BoundingShapes.Rect.MaxSize | core/src/main/kotlin/ca/allanwang/minecraft/toolbox/core/BoundingShapes.kt:25 | maxSize is the larger of sizeX and sizeY |
| BoundingShapes.SinglePointRect | core/src/main/kotlin/ca/allanwang/minecraft/toolbox/core/BoundingShapes.kt:9-23 | a box built from one point is ordered, 1 by 1, and holds only that point |
| BoundingShapes.BoundingBox.Bind | core/src/main/kotlin/ca/allanwang/minecraft/toolbox/core/BoundingShapes.kt:15-20 | the new bounds are the old bounds extended by the point |
| BoundingShapes.Cuboid.Extend | core/src/main/kotlin/ca/allanwang/minecraft/toolbox/core/BoundingShapes.kt:39-46 | bind on a prism takes in the point on all three axes, never shrinks, is the smallest such prism, keeps min <= max and leaves a prism already holding the point unchanged |
| BoundingShapes.Cuboid.SizeX | core/src/main/kotlin/ca/allanwang/minecraft/toolbox/core/BoundingShapes.kt:48 | the inclusive x size is at least 1 exactly when minX <= maxX |
| BoundingShapes.Cuboid.SizeY | core/src/main/kotlin/ca/allanwang/minecraft/toolbox/core/BoundingShapes.kt:49 | the inclusive y size is at least 1 exactly when minY <= maxY |
| BoundingShapes.Cuboid.SizeZ | core/src/main/kotlin/ca/allanwang/minecraft/toolbox/core/BoundingShapes.kt:50 | the inclusive z size is at least 1 exactly when minZ <= maxZ |
| BoundingShapes.Cuboid.MaxSize | core/src/main/kotlin/ca/allanwang/minecraft/toolbox/core/BoundingShapes.kt:52 | maxSize is the largest of the three sizes |
| BoundingShapes.BoundingPrism.Bind | core/src/main/kotlin/ca/allanwang/minecraft/toolbox/core/BoundingShapes.kt:39-46 | the new bounds are the old bounds extended by the point |
| ExclusiveBox.BoundingBox.Bind | core/src/main/kotlin/ca/allanwang/minecraft/toolbox/core/BoundingBox.kt:15-20 | bind extends the bounds by the point, with the containment and monotonicity of Rect.Extend |
| ExclusiveBox.BoundingBox.SizeX | core/src/main/kotlin/ca/allanwang/minecraft/toolbox/core/BoundingBox.kt:22 | sizeX is one less than the inclusive width, and non-negative exactly when minX <= maxX |
| ExclusiveBox.BoundingBox.SizeY | core/src/main/kotlin/ca/allanwang/minecraft/toolbox/core/BoundingBox.kt:23 | sizeY is one less than the inclusive height, and non-negative exactly when minY <= maxY |
| ExclusiveBox.BoundingBox.MaxSize | core/src/main/kotlin/ca/allanwang/minecraft/toolbox/core/BoundingBox.kt:25 | maxSize is the larger of sizeX and sizeY |
| ExclusiveBox.SinglePointIsEmpty | core/src/main/kotlin/ca/allanwang/minecraft/toolbox/core/BoundingBox.kt:9-23 | a box built from one point has size 0 by 0 and still holds the point |
| PolygonSweep.Blank | core/src/main/kotlin/ca/allanwang/minecraft/toolbox/core/PolygonData.kt:40-42 | the grid as allocated: the right shape, every cell null |
| PolygonSweep.Write | core/src/main/kotlin/ca/allanwang/minecraft/toolbox/core/PolygonData.kt:48-50 | setting a cell changes exactly that cell |
| PolygonSweep.ColFrom | core/src/main/kotlin/ca/allanwang/minecraft/toolbox/core/PolygonData.kt:121-132 | the column sweep keeps the grid's shape |
| PolygonSweep.RowFrom | core/src/main/kotlin/ca/allanwang/minecraft/toolbox/core/PolygonData.kt:101-115 | the row sweep keeps the grid's shape |
| PolygonSweep.BlankConsistent | core/src/main/kotlin/ca/allanwang/minecraft/toolbox/core/PolygonData.kt:40-42 | the all-null grid is consistent |
| PolygonSweep.WriteKeepsConsistent | core/src/main/kotlin/ca/allanwang/minecraft/toolbox/core/PolygonData.kt:152-161 | writing the classified state of a null cell keeps every resolved cell following the classification rule from its predecessor |
| PolygonSweep.ColSound | core/src/main/kotlin/ca/allanwang/minecraft/toolbox/core/PolygonData.kt:121-132 | the fallback column sweep adds only consistent cells and only in its column from its start row on |
| PolygonSweep.ColExtends | core/src/main/kotlin/ca/allanwang/minecraft/toolbox/core/PolygonData.kt:145-150 | the column sweep never overwrites a resolved cell |
| PolygonSweep.RowStepFacts | core/src/main/kotlin/ca/allanwang/minecraft/toolbox/core/PolygonData.kt:140-169 | one row step never overwrites; it yields an inside flag exactly when it resolved the cell, that cell's flag, and yields none only at an aligned edge off the first row and column |
| PolygonSweep.RowStepSound | core/src/main/kotlin/ca/allanwang/minecraft/toolbox/core/PolygonData.kt:152-169 | one row step on a consistent grid leaves it consistent |
| PolygonSweep.RowExtends | core/src/main/kotlin/ca/allanwang/minecraft/toolbox/core/PolygonData.kt:101-115 | the row sweep never overwrites a resolved cell |
| PolygonSweep.RowKeeps | core/src/main/kotlin/ca/allanwang/minecraft/toolbox/core/PolygonData.kt:101-115 | the row sweep keeps the grid consistent |
| PolygonSweep.RowCompletes | core/src/main/kotlin/ca/allanwang/minecraft/toolbox/core/PolygonData.kt:101-115 | a row sweep that raises nothing leaves every cell of the row from its start on resolved |
| PolygonSweep.RowFails | core/src/main/kotlin/ca/allanwang/minecraft/toolbox/core/PolygonData.kt:162-165 | a row sweep that raises stopped at an aligned edge of that row which the column fallback left null |
| PolygonSweep.ResolveFromExtends | core/src/main/kotlin/ca/allanwang/minecraft/toolbox/core/PolygonData.kt:97-99 | resolve never overwrites a resolved cell |
| PolygonSweep.ResolveFromKeeps | core/src/main/kotlin/ca/allanwang/minecraft/toolbox/core/PolygonData.kt:97-99 | resolve keeps a consistent grid consistent |
| PolygonSweep.ResolveFromCompletes | core/src/main/kotlin/ca/allanwang/minecraft/toolbox/core/PolygonData.kt:97-99 | a resolve that raises nothing leaves every row from its start on resolved |
| PolygonSweep.ResolveFromExplains | core/src/main/kotlin/ca/allanwang/minecraft/toolbox/core/PolygonData.kt:97-99 | a resolve that raises names a row that had no cells or an aligned edge the fallback left null |
| PolygonSweep.ResolveSound | core/src/main/kotlin/ca/allanwang/minecraft/toolbox/core/PolygonData.kt:97-99 | a resolve on a consistent grid leaves it consistent, and complete unless it raised an explained exception |
| PolygonSweep.CornerUnresolved | core/src/main/kotlin/ca/allanwang/minecraft/toolbox/core/PolygonData.kt:152-165 | an edge cell off the first row and column with edges to its right and below is null in every consistent grid |
| PolygonSweep.CornerFails | core/src/main/kotlin/ca/allanwang/minecraft/toolbox/core/PolygonData.kt:97-99 | so a first resolve of a polygon with such a corner raises |
| PolygonSweep.InteriorMembers | core/src/main/kotlin/ca/allanwang/minecraft/toolbox/core/PolygonData.kt:174-189 | extract reports a point exactly when it is a resolved, non-edge, inside cell moved by the box's corner |
| PolygonSweep.InteriorSorted | core/src/main/kotlin/ca/allanwang/minecraft/toolbox/core/PolygonData.kt:176-178 | extract lists its points in strictly increasing row-major order, so without duplicates |
| PolygonSweep.InteriorOffPath | core/src/main/kotlin/ca/allanwang/minecraft/toolbox/core/PolygonData.kt:174-189 | on a consistent grid no reported point is a path cell |
| Polygon.CoordGraph | core/src/main/kotlin/ca/allanwang/minecraft/toolbox/core/PolygonData.kt:54-62 | offsetPath moves every path point by the box's corner, and isEdge(x, y) holds exactly when (x + minX, y + minY) is on the path |
| Polygon.NullGrid | core/src/main/kotlin/ca/allanwang/minecraft/toolbox/core/PolygonData.kt:40-42 | a fresh sizeX by sizeY grid whose cells are all null |
| Polygon.ExtractedFacts | core/src/main/kotlin/ca/allanwang/minecraft/toolbox/core/PolygonData.kt:174-189 | once resolved consistently, extract's list is row-major sorted, is exactly the inside cells moved into world coordinates, avoids the path and lies in the box |
| Polygon.ExtractedCells | core/src/main/kotlin/ca/allanwang/minecraft/toolbox/core/PolygonData.kt:174-189 | extract lists, row-major and each once, exactly the reported cells moved into world coordinates, all within [minX, minX + sizeX) by [minY, minY + sizeY) |
| Polygon.ExtractedOffPath | core/src/main/kotlin/ca/allanwang/minecraft/toolbox/core/PolygonData.kt:174-189 | no extracted point is a point of the path |
| Polygon.PolygonData.constructor | core/src/main/kotlin/ca/allanwang/minecraft/toolbox/core/PolygonData.kt:16-70 | an all-null grid of the box's exclusive size, the lazy unset |
| Polygon.PolygonData.ResolveCol | core/src/main/kotlin/ca/allanwang/minecraft/toolbox/core/PolygonData.kt:121-132 | the in-place column sweep leaves the grid that the value-level column sweep computes |
| Polygon.PolygonData.ColCell | core/src/main/kotlin/ca/allanwang/minecraft/toolbox/core/PolygonData.kt:134-172 | one column cell: a resolved cell gives its flag; a null one is classified and written, or ends the sweep at an aligned edge |
| Polygon.PolygonData.RowCell | core/src/main/kotlin/ca/allanwang/minecraft/toolbox/core/PolygonData.kt:134-172 | one row cell, with the column fallback at an aligned edge, equals the value-level row step |
| Polygon.PolygonData.ResolveRow | core/src/main/kotlin/ca/allanwang/minecraft/toolbox/core/PolygonData.kt:101-115 | the in-place row sweep equals the value-level row sweep, grid and exception |
| Polygon.PolygonData.Resolve | core/src/main/kotlin/ca/allanwang/minecraft/toolbox/core/PolygonData.kt:97-99 | the in-place resolve equals the value-level resolve |
| Polygon.PolygonData.Extract | core/src/main/kotlin/ca/allanwang/minecraft/toolbox/core/PolygonData.kt:174-189 | extract returns the reported cells of the grid, row by row, in world coordinates |
| Polygon.PolygonData.ExtractRow | core/src/main/kotlin/ca/allanwang/minecraft/toolbox/core/PolygonData.kt:176-188 | one row of extract: its reported cells left to right |
| Polygon.PolygonData.PointsInPolygon | core/src/main/kotlin/ca/allanwang/minecraft/toolbox/core/PolygonData.kt:67-75 | a cached result is returned unchanged without touching the grid; otherwise resolve and extract run once and cache on success; a result lists the interior with all extract's guarantees, an exception is explained |
| Polygon.PolygonData.ResolveAndExtract | core/src/main/kotlin/ca/allanwang/minecraft/toolbox/core/PolygonData.kt:67-70 | the lazy's initializer: resolve, then extract and cache on success only |
| PolygonTestGrid.ParseMeaning | core/src/test/kotlin/ca/allanwang/minecraft/toolbox/core/PolygonDataTest.kt:44-81 | parsing succeeds exactly when all rows have one width, both sizes are under 50 and only x, - and . occur; the box is (0, 0) to (width, height), the path is the x cells and the inside the - cells, both row-major |
| PolygonTestGrid.ParsePolygonTestData | core/src/test/kotlin/ca/allanwang/minecraft/toolbox/core/PolygonDataTest.kt:44-81 | the cell-by-cell parse gives the value-level parse |
| PolygonTestGrid.ScanCells | core/src/test/kotlin/ca/allanwang/minecraft/toolbox/core/PolygonDataTest.kt:61-70 | the scan over checked rows gives the value-level parse, including the first bad character |
| PolygonTestGrid.ParseRowsInvalid | core/src/test/kotlin/ca/allanwang/minecraft/toolbox/core/PolygonDataTest.kt:61-70 | with sizes checked, the parse fails at the first character that is no mark |
| PolygonTestGrid.ParseRowsValid | core/src/test/kotlin/ca/allanwang/minecraft/toolbox/core/PolygonDataTest.kt:56-80 | with sizes checked and only marks present, the parse is the x cells, the box of the grid and the - cells |
| PolygonTestGrid.ScanLine | core/src/test/kotlin/ca/allanwang/minecraft/toolbox/core/PolygonDataTest.kt:61-70 | one line: its x and - cells left to right, or the first position holding another character |
| PolygonTestGrid.PointIndex | core/src/test/kotlin/ca/allanwang/minecraft/toolbox/core/PolygonDataTest.kt:22-23 | row y is under column x exactly when (x, y) is a point |
| PolygonTestGrid.PrettyString | core/src/test/kotlin/ca/allanwang/minecraft/toolbox/core/PolygonDataTest.kt:21-39 | the string builder gives the value-level pretty text |
| PolygonTestGrid.PrettyRows | core/src/test/kotlin/ca/allanwang/minecraft/toolbox/core/PolygonDataTest.kt:21-39 | the pretty text has sizeY lines, each sizeX cells once spaces are removed, the path winning over the inside, which wins over '.' |
| PolygonTestGrid.PrettyLines | core/src/test/kotlin/ca/allanwang/minecraft/toolbox/core/PolygonDataTest.kt:21-39 | the lines of the pretty text are exactly its row texts, with no trailing line break |
| PolygonTestGrid.RoundTrip | core/src/test/kotlin/ca/allanwang/minecraft/toolbox/core/PolygonDataTest.kt:83-89 | parsing the pretty text of a parsed grid gives the same parse |
| PolygonTestGrid.BasicParse | core/src/test/kotlin/ca/allanwang/minecraft/toolbox/core/PolygonDataTest.kt:101-123 | the basicParse grid gives the 4 by 3 box, the seven listed path points and nothing inside |
| PolygonTestGrid.Path1Parse | core/src/test/kotlin/ca/allanwang/minecraft/toolbox/core/PolygonDataTest.kt:125-132 | path1 parses to a 9 by 6 box whose path turns a corner at (7, 4) |
| PolygonTestGrid.Path2Parse | core/src/test/kotlin/ca/allanwang/minecraft/toolbox/core/PolygonDataTest.kt:134-142 | path2 parses to a 9 by 7 box whose path turns a corner at (5, 1) |
| PolygonTestGrid.PointsOfCornered | core/src/test/kotlin/ca/allanwang/minecraft/toolbox/core/PolygonDataTest.kt:83-89 | pointsInPolygon of a fresh polygon whose path turns a corner inside the box raises |
| PolygonTestGrid.ComplexExtract1 | core/src/test/kotlin/ca/allanwang/minecraft/toolbox/core/PolygonDataTest.kt:161-182 | on path1 pointsInPolygon raises instead of returning the fourteen listed points |
| PolygonTestGrid.ComplexParsePath2 | core/src/test/kotlin/ca/allanwang/minecraft/toolbox/core/PolygonDataTest.kt:151-159 | on path2 pointsInPolygon raises |
| PolygonTestGrid.Path1Marked | core/src/test/kotlin/ca/allanwang/minecraft/toolbox/core/PolygonDataTest.kt:125-132 | the x cells of path1 are exactly its thirty listed wall cells, and its - cells exactly the fourteen expected points |
| PolygonTestGrid.Path1Cells | core/src/test/kotlin/ca/allanwang/minecraft/toolbox/core/PolygonDataTest.kt:125-132 | path1 parses to the box (0, 0) to (9, 6), with the wall cells as its path and the expected points as its inside |
| PolygonTestGrid.Extract1Fenced | core/src/test/kotlin/ca/allanwang/minecraft/toolbox/core/PolygonDataTest.kt:161-182 | the fourteen expected points form a fenced set of path1: free, off the border, each neighbour on the path or among them |
| PolygonTestGrid.Path1GapOpen | core/src/test/kotlin/ca/allanwang/minecraft/toolbox/core/PolygonDataTest.kt:125-132 | no fenced set of path1 holds (4, 1) or (5, 1), which open onto free border cells |
| PolygonTestGrid.FencedWithinExtract1 | core/src/test/kotlin/ca/allanwang/minecraft/toolbox/core/PolygonDataTest.kt:161-182 | every fenced set of path1 lies among the fourteen expected points |
| PolygonTestGrid.EnclosedByPath1 | core/src/test/kotlin/ca/allanwang/minecraft/toolbox/core/PolygonDataTest.kt:161-182 | a path with path1's cells encloses exactly the fourteen expected points |
| PolygonTestGrid.Extract1Enclosed | core/src/test/kotlin/ca/allanwang/minecraft/toolbox/core/PolygonDataTest.kt:161-182 | the cells strictly inside path1 are exactly the fourteen points complexExtract1 lists, which are the cells its grid marks - |
| PolygonTestGrid.NewPolygon | core/src/test/kotlin/ca/allanwang/minecraft/toolbox/core/PolygonDataTest.kt:83-89 | a fresh resolver over the parsed path and box, with an all-null grid |
| GridText.Rows | plugin/src/test/kotlin/ca/allanwang/minecraft/toolbox/core/PointsInPolygonTest.kt:12-14 | one row per line, each the line with its spaces removed |
| GridText.CellsMembers | plugin/src/test/kotlin/ca/allanwang/minecraft/toolbox/core/PointsInPolygonTest.kt:14-21 | a cell is listed exactly when it holds the character |
| GridText.CellsSorted | plugin/src/test/kotlin/ca/allanwang/minecraft/toolbox/core/PointsInPolygonTest.kt:14-21 | the cells are listed in row-major order, each once |
| PathGrid.ParsePathMeaning | plugin/src/test/kotlin/ca/allanwang/minecraft/toolbox/core/PointsInPolygonTest.kt:10-23 | parsePath succeeds exactly when all trimmed lines have one length and only x and . occur; it then lists the x cells, in row-major order |
| PathGrid.ParsePathScan | plugin/src/test/kotlin/ca/allanwang/minecraft/toolbox/core/PointsInPolygonTest.kt:10-23 | the line-by-line parse gives the value-level parse |
| PathGrid.ScanPath | plugin/src/test/kotlin/ca/allanwang/minecraft/toolbox/core/PointsInPolygonTest.kt:14-21 | the character loop gives the value-level parse, including the first bad character |
| PathGrid.MaxOfOrNull | plugin/src/test/kotlin/ca/allanwang/minecraft/toolbox/core/PointsInPolygonTest.kt:26-29 | null exactly for an empty list, otherwise an element of the list no element exceeds |
| PathGrid.Bound | plugin/src/test/kotlin/ca/allanwang/minecraft/toolbox/core/PointsInPolygonTest.kt:26-29 | a bound exactly when the list is not empty and its maximum is under 20 |
| PathGrid.FirstMissing | plugin/src/test/kotlin/ca/allanwang/minecraft/toolbox/core/PointsInPolygonTest.kt:35-36 | the first column with no point, or none when every column up to maxX holds one |
| PathGrid.PrettyPathDefined | plugin/src/test/kotlin/ca/allanwang/minecraft/toolbox/core/PointsInPolygonTest.kt:25-43 | prettyString succeeds exactly for a non-empty list with both maxima under 20 and every column up to maxX holding a point |
| PathGrid.PrettyString | plugin/src/test/kotlin/ca/allanwang/minecraft/toolbox/core/PointsInPolygonTest.kt:25-43 | the string builder gives the value-level pretty text or the same failure |
| PathGrid.ColumnIndex | plugin/src/test/kotlin/ca/allanwang/minecraft/toolbox/core/PointsInPolygonTest.kt:31 | the index holds a column exactly when some point lies in it, and row y under x exactly when (x, y) is a point |
| PathGrid.PrintRow | plugin/src/test/kotlin/ca/allanwang/minecraft/toolbox/core/PointsInPolygonTest.kt:35-39 | one printed row, or the first column getValue fails on |
| PathGrid.PrintedRows | plugin/src/test/kotlin/ca/allanwang/minecraft/toolbox/core/PointsInPolygonTest.kt:25-43 | the printed text has maxY + 1 lines of equal trimmed length whose characters without spaces are the cells of the window |
| PathGrid.ParsePrinted | plugin/src/test/kotlin/ca/allanwang/minecraft/toolbox/core/PointsInPolygonTest.kt:45-50 | parsing a print lists, in row-major order, exactly the points inside the window |
| PathGrid.RoundTrip | plugin/src/test/kotlin/ca/allanwang/minecraft/toolbox/core/PointsInPolygonTest.kt:45-50 | parsing the print of a parsed path gives the same path, whenever the print succeeds |
| PathGrid.BasicParse | plugin/src/test/kotlin/ca/allanwang/minecraft/toolbox/core/PointsInPolygonTest.kt:52-71 | the 3 by 3 sample gives the seven listed points in row-major order |
| Terraform.Height | plugin/src/main/kotlin/ca/allanwang/minecraft/toolbox/node/Terraform.kt:108-115 | a height exactly when the first argument is an integer in 1..50, that integer; a missing or non-integer argument and an out-of-range one fail with their own messages |
| Terraform.HeightOfRendered | plugin/src/main/kotlin/ca/allanwang/minecraft/toolbox/node/Terraform.kt:108-115 | any height in 1..50, typed out, is accepted as itself |
| Terraform.Tokens | plugin/src/main/kotlin/ca/allanwang/minecraft/toolbox/node/Terraform.kt:132-137 | the tokens are at least as many as the arguments and none holds a comma |
| Terraform.UntilFirstNull | plugin/src/main/kotlin/ca/allanwang/minecraft/toolbox/node/Terraform.kt:138 | the values before the first null, in order |
| Terraform.Numbers | plugin/src/main/kotlin/ca/allanwang/minecraft/toolbox/node/Terraform.kt:132-138 | the longest run of integer tokens from the start |
| Terraform.Triples | plugin/src/main/kotlin/ca/allanwang/minecraft/toolbox/node/Terraform.kt:144 | the numbers in consecutive groups of three |
| Terraform.Hull | plugin/src/main/kotlin/ca/allanwang/minecraft/toolbox/node/Terraform.kt:150-153 | the smallest ordered prism holding every point |
| Terraform.PrismOf | plugin/src/main/kotlin/ca/allanwang/minecraft/toolbox/node/Terraform.kt:131-154 | a prism exactly when the count of numbers is a multiple of 3 giving at least 2 points, and then their hull; the other cases fail with their own message |
| Terraform.PrismPoints | plugin/src/main/kotlin/ca/allanwang/minecraft/toolbox/node/Terraform.kt:131-154 | the bind loop gives the value-level result |
| Terraform.BindAll | plugin/src/main/kotlin/ca/allanwang/minecraft/toolbox/node/Terraform.kt:150-153 | binding every point into a prism started at the first gives their hull |
| Terraform.HullStep | plugin/src/main/kotlin/ca/allanwang/minecraft/toolbox/node/Terraform.kt:150-152 | each bind extends the hull of the points bound so far |
| Terraform.MinAbs | plugin/src/main/kotlin/ca/allanwang/minecraft/toolbox/node/Terraform.kt:189-190 | the distance to the nearer of the two bounds |
| Terraform.Distance | plugin/src/main/kotlin/ca/allanwang/minecraft/toolbox/node/Terraform.kt:192-208 | the largest of the three per-axis distances |
| Terraform.NearIffEachAxis | plugin/src/main/kotlin/ca/allanwang/minecraft/toolbox/node/Terraform.kt:192-212 | the player is near enough exactly when on each axis one face is within 50 blocks |
| Terraform.CentreOfLongPrismIsFar | plugin/src/main/kotlin/ca/allanwang/minecraft/toolbox/node/Terraform.kt:189-212 | a player in the middle of a prism 202 blocks long is more than 50 blocks from it |
| Terraform.PrismOrderFacts | plugin/src/main/kotlin/ca/allanwang/minecraft/toolbox/node/Terraform.kt:214-223 | the prism loops visit every block of the prism once, in increasing (x, y, z) order, and nothing else: sizeX * sizeY * sizeZ blocks |
| Terraform.PrismCells | plugin/src/main/kotlin/ca/allanwang/minecraft/toolbox/node/Terraform.kt:216-223 | the nested loops produce the prism's block order |
| Terraform.YRange | plugin/src/main/kotlin/ca/allanwang/minecraft/toolbox/node/Terraform.kt:168-170 | a valid height gives height + 1 levels |
| Terraform.YRangeLevels | plugin/src/main/kotlin/ca/allanwang/minecraft/toolbox/node/Terraform.kt:168-170 | the levels run from blockY - 2, one apart, upwards for up and downwards otherwise, to the range's last |
| Terraform.PathSweepFacts | plugin/src/main/kotlin/ca/allanwang/minecraft/toolbox/node/Terraform.kt:174-179 | the path sweep visits |levels| * |points| blocks, exactly each path point at each level |
| Terraform.PathCells | plugin/src/main/kotlin/ca/allanwang/minecraft/toolbox/node/Terraform.kt:174-179 | the nested loops produce the path sweep |
| Terraform.AnnouncedAsWrittenMiscounts | plugin/src/main/kotlin/ca/allanwang/minecraft/toolbox/node/Terraform.kt:172 | as written, 10 points over depth 5 announce -50 blocks going down and 50 going up while 60 are visited |
| Terraform.Announced | plugin/src/main/kotlin/ca/allanwang/minecraft/toolbox/node/Terraform.kt:172 | corrected, one block per point per level: points * (height + 1) |
| Terraform.PathWork | plugin/src/main/kotlin/ca/allanwang/minecraft/toolbox/node/Terraform.kt:159-180 | fails exactly with the height's failure, or for a missing path; otherwise announces and visits one block per path point per level, exactly those blocks |
| Terraform.PathLevelsWork | plugin/src/main/kotlin/ca/allanwang/minecraft/toolbox/node/Terraform.kt:168-179 | a path sweep over a valid height announces |points| * (height + 1) and visits exactly that many blocks: each path point at each level |
| Terraform.InnerPointSequencePath | plugin/src/main/kotlin/ca/allanwang/minecraft/toolbox/node/Terraform.kt:159-180 | the loops give the value-level path work |
| Terraform.PrismWork | plugin/src/main/kotlin/ca/allanwang/minecraft/toolbox/node/Terraform.kt:185-224 | succeeds exactly when the prism parses and the player is within 50 blocks; then it announces sizeX * sizeY * sizeZ and visits the prism's blocks in order |
| Terraform.InnerPointSequencePrism | plugin/src/main/kotlin/ca/allanwang/minecraft/toolbox/node/Terraform.kt:185-224 | the loops give the value-level prism work |
| Terraform.PathModeHeight | plugin/src/main/kotlin/ca/allanwang/minecraft/toolbox/node/Terraform.kt:232-233 | in path mode the height is always present and numeric, so only its range can fail |
| Terraform.InnerPointSequence | plugin/src/main/kotlin/ca/allanwang/minecraft/toolbox/node/Terraform.kt:226-236 | path mode exactly for fewer than 3 arguments led by an integer, prism mode otherwise |
| Terraform.RunCommand | plugin/src/main/kotlin/ca/allanwang/minecraft/toolbox/node/Terraform.kt:29-99 | up and down sweep the path upwards and downwards, fill chooses by the argument rule going down, clear sweeps the typed prism |
| TextHelper.Spaces | plugin/src/main/kotlin/ca/allanwang/minecraft/toolbox/helper/TextHelper.kt:10-12 | repeat(n) appends max(n, 0) spaces |
| TextHelper.MaxLength | plugin/src/main/kotlin/ca/allanwang/minecraft/toolbox/helper/TextHelper.kt:4 | the length of the longest first element, 0 for no pairs |
| TextHelper.PrettyJoin | plugin/src/main/kotlin/ca/allanwang/minecraft/toolbox/helper/TextHelper.kt:3-16 | one line per pair in order; a pair without second is its first alone; otherwise the first, then padding up to column maxLength + minSpace, then the second |
| TextHelper.PrettyJoinAligned | plugin/src/main/kotlin/ca/allanwang/minecraft/toolbox/helper/TextHelper.kt:3-16 | with minSpace >= 0 every second element starts at column maxLength + minSpace, after at least minSpace spaces |
| TextHelper.Label | plugin/src/main/kotlin/ca/allanwang/minecraft/toolbox/helper/TextHelper.kt:18-19 | the label of n is the rendering of n followed by a dot |
| TextHelper.Numbered | plugin/src/main/kotlin/ca/allanwang/minecraft/toolbox/helper/TextHelper.kt:18-19 | the i-th string paired with the label of i + 1 |
| TextHelper.NumberedListLine | plugin/src/main/kotlin/ca/allanwang/minecraft/toolbox/helper/TextHelper.kt:18-19 | line i is the label "i+1.", at least one space, then the i-th string, starting at the same column on every line |
| Text.Lower | base/src/main/kotlin/ca/allanwang/minecraft/toolbox/base/MctNode.kt:32 | toLowerCase(Locale.ENGLISH) keeps the length and lowers each letter |
| Text.Split | plugin/src/main/kotlin/ca/allanwang/minecraft/toolbox/node/Terraform.kt:134 | split gives at least one piece and no piece holds the separator |
| Text.JoinSplit | plugin/src/main/kotlin/ca/allanwang/minecraft/toolbox/node/Terraform.kt:134 | joining the pieces of a split with the separator gives the text back |
| Text.Lines | plugin/src/test/kotlin/ca/allanwang/minecraft/toolbox/core/PointsInPolygonTest.kt:12 | lines() gives at least one line and none holding a line break |
| Text.LinesOfJoin | plugin/src/test/kotlin/ca/allanwang/minecraft/toolbox/core/PointsInPolygonTest.kt:12 | lines() of lines joined by line breaks gives those lines back |
| Text.RemoveSpaces | plugin/src/test/kotlin/ca/allanwang/minecraft/toolbox/core/PointsInPolygonTest.kt:14 | replace(" ", "") leaves every character but the spaces, in order |
| Text.LexLessTotal | base/src/main/kotlin/ca/allanwang/minecraft/toolbox/base/MctNode.kt:27 | String.compareTo orders any two distinct strings one way or the other |
| Text.LexLessTransitive | base/src/main/kotlin/ca/allanwang/minecraft/toolbox/base/MctNode.kt:27 | String.compareTo is transitive |
| Nodes.InsertSorted | base/src/main/kotlin/ca/allanwang/minecraft/toolbox/base/MctNode.kt:27 | putting a key into the sorted map keeps its keys sorted and adds exactly that key |
| Nodes.PutAllSpec | base/src/main/kotlin/ca/allanwang/minecraft/toolbox/base/MctNode.kt:31-33 | after children(nodes) a key is present exactly when it was or names a node; it maps to the last node with that key, and other keys keep their node |
| Nodes.MctNode.constructor | base/src/main/kotlin/ca/allanwang/minecraft/toolbox/base/MctNode.kt:21-29 | a node with its name and no children |
| Nodes.MctNode.Children | base/src/main/kotlin/ca/allanwang/minecraft/toolbox/base/MctNode.kt:31-33 | registering children puts each under its lower-cased name, a later one replacing an earlier one, keys kept sorted |
| Nodes.MctNode.Descend | base/src/main/kotlin/ca/allanwang/minecraft/toolbox/base/MctNode.kt:35-41 | the walk stops at a node where no argument is left or the lower-cased first argument names no child; below the start its arguments are origArgs from its depth on |
| Nodes.MctNode.HandleCommandAsWritten | base/src/main/kotlin/ca/allanwang/minecraft/toolbox/base/MctNode.kt:35-47 | as written: false and nothing launched when the walk runs out of arguments; otherwise the stopping node's command is launched with its context and depth > 0 is returned |
| Nodes.MctNode.HandleCommand | base/src/main/kotlin/ca/allanwang/minecraft/toolbox/base/MctNode.kt:35-47 | corrected: only the root with no arguments launches nothing; every other stop launches its command and reports depth > 0 |
| Nodes.MctNode.TabComplete | base/src/main/kotlin/ca/allanwang/minecraft/toolbox/base/MctNode.kt:61-71 | a node's tab completion: its fixed list when it overrides tabComplete, the default filter otherwise |
| Nodes.MctNode.HandleTabComplete | base/src/main/kotlin/ca/allanwang/minecraft/toolbox/base/MctNode.kt:49-57 | null when the walk runs out of arguments, else the tab completion of the node it stops at, in that node's context |
| Nodes.FilterPrefix | base/src/main/kotlin/ca/allanwang/minecraft/toolbox/base/MctNode.kt:65-70 | the keys starting with the prefix ignoring case, still sorted |
| Nodes.DefaultTabComplete | base/src/main/kotlin/ca/allanwang/minecraft/toolbox/base/MctNode.kt:61-71 | null exactly without children; all keys for a missing or empty prefix; otherwise exactly the keys starting with it ignoring case; sorted order kept |
| Nodes.LowerOfLower | base/src/main/kotlin/ca/allanwang/minecraft/toolbox/base/MctNode.kt:32 | a name without capitals is its own key |
| Nodes.ResetWithoutArguments | base/src/main/kotlin/ca/allanwang/minecraft/toolbox/base/MctNode.kt:35-37 | as written /mct compass reset reports false and launches nothing; corrected it launches reset at depth 2 |
| Context.Slice | base/src/main/kotlin/ca/allanwang/minecraft/toolbox/base/Context.kt:49-57 | sliceArray(from..lastIndex): the arguments from index from on, empty once from passes the end |
| Context.CommandContext.SubDepth | base/src/main/kotlin/ca/allanwang/minecraft/toolbox/base/Context.kt:49-57 | subDepth(n) has depth n and args origArgs from n on, every other field unchanged |
| Context.CommandContext.Child | base/src/main/kotlin/ca/allanwang/minecraft/toolbox/base/Context.kt:47 | child() is subDepth(depth + 1) |
| Context.RootCommand | base/src/main/kotlin/ca/allanwang/minecraft/toolbox/base/Context.kt:37-46 | a command's root context is well formed at depth 0 with all arguments |
| Context.SubDepthChild | base/src/main/kotlin/ca/allanwang/minecraft/toolbox/base/Context.kt:47-57 | every subDepth context is well formed and its child is the next subDepth |
| Context.CommandChildConsumes | base/src/main/kotlin/ca/allanwang/minecraft/toolbox/base/Context.kt:47-57 | in a well-formed context with arguments, child() drops exactly the first argument |
| Context.CommandChildRank | base/src/main/kotlin/ca/allanwang/minecraft/toolbox/base/Context.kt:47-57 | child() of a context with arguments left is closer to running out |
| Context.TabCompleteContext.Child | base/src/main/kotlin/ca/allanwang/minecraft/toolbox/base/Context.kt:70-78 | child() has depth + 1 and args origArgs from depth + 1 on, every other field unchanged |
| Context.TabCompleteContext.AtDepth | base/src/main/kotlin/ca/allanwang/minecraft/toolbox/base/Context.kt:70-78 | the context at depth d: args origArgs from d on, every other field unchanged |
| Context.RootTabComplete | base/src/main/kotlin/ca/allanwang/minecraft/toolbox/base/Context.kt:60-69 | a tab completion's root context is well formed at depth 0 with all arguments |
| Context.TabChildAtDepth | base/src/main/kotlin/ca/allanwang/minecraft/toolbox/base/Context.kt:70-78 | child() is the context at depth + 1, and descending from it reaches the same contexts |
| Context.TabChildConsumes | base/src/main/kotlin/ca/allanwang/minecraft/toolbox/base/Context.kt:70-78 | in a well-formed context with arguments, child() drops exactly the first argument |
| Context.TabChildRank | base/src/main/kotlin/ca/allanwang/minecraft/toolbox/base/Context.kt:70-78 | child() of a context with arguments left is closer to running out |
| Context.NameToPlayerOrNull | base/src/main/kotlin/ca/allanwang/minecraft/toolbox/base/Context.kt:30-31 | a null name gives null; otherwise the server's answer for that name |
| Context.NameToPlayer | base/src/main/kotlin/ca/allanwang/minecraft/toolbox/base/Context.kt:33-34 | a player exactly when the name is given and the server knows it; otherwise the failure naming it |
| Compass.Metadata.Trackers | plugin/src/main/kotlin/ca/allanwang/minecraft/toolbox/Compass.kt:55-59 | unset trackers read as the empty set, set ones as stored |
| Compass.Metadata.Tracking | plugin/src/main/kotlin/ca/allanwang/minecraft/toolbox/Compass.kt:61-65 | unset tracking reads as null, set tracking as stored |
| Compass.RemoveTrackerOf | plugin/src/main/kotlin/ca/allanwang/minecraft/toolbox/Compass.kt:89-92 | exactly the tracker leaves the player's trackers; tracking and every other player's trackers are unchanged |
| Compass.RemoveTrackingOf | plugin/src/main/kotlin/ca/allanwang/minecraft/toolbox/Compass.kt:73-79 | nothing changes when the player follows no one or the target is offline; otherwise the player stops following and leaves the target's trackers, nothing else changing |
| Compass.RemoveTrackingConsistent | plugin/src/main/kotlin/ca/allanwang/minecraft/toolbox/Compass.kt:73-79 | stopping to follow keeps every follower among their target's trackers |
| Compass.SetTrackingAsWrittenOf | plugin/src/main/kotlin/ca/allanwang/minecraft/toolbox/Compass.kt:81-87 | as written: setTracking(p, null) only removes tracking; otherwise p follows q and q's own id joins q's trackers |
| Compass.SetTrackingAsWrittenInconsistent | plugin/src/main/kotlin/ca/allanwang/minecraft/toolbox/Compass.kt:84-86 | as written, after p follows q, p is not among q's trackers |
| Compass.SetTrackingOf | plugin/src/main/kotlin/ca/allanwang/minecraft/toolbox/Compass.kt:81-87 | corrected: p follows q and p joins q's trackers, after removing p's old tracking |
| Compass.SetTrackingConsistent | plugin/src/main/kotlin/ca/allanwang/minecraft/toolbox/Compass.kt:81-87 | corrected setTracking keeps every follower among their target's trackers |
| Compass.RetargetMeaning | plugin/src/main/kotlin/ca/allanwang/minecraft/toolbox/Compass.kt:94-99 | exactly the given players point at the location; every other compass keeps its target |
| Compass.CompassHelper.constructor | plugin/src/main/kotlin/ca/allanwang/minecraft/toolbox/Compass.kt:32-65 | no metadata and no compass targets |
| Compass.CompassHelper.RemoveTracker | plugin/src/main/kotlin/ca/allanwang/minecraft/toolbox/Compass.kt:89-92 | the metadata become RemoveTrackerOf of the old ones; compass targets unchanged |
| Compass.CompassHelper.RemoveTracking | plugin/src/main/kotlin/ca/allanwang/minecraft/toolbox/Compass.kt:73-79 | the metadata become RemoveTrackingOf of the old ones; compass targets unchanged |
| Compass.CompassHelper.SetTrackingAsWritten | plugin/src/main/kotlin/ca/allanwang/minecraft/toolbox/Compass.kt:81-87 | the metadata become SetTrackingAsWrittenOf of the old ones; compass targets unchanged |
| Compass.CompassHelper.SetTracking | plugin/src/main/kotlin/ca/allanwang/minecraft/toolbox/Compass.kt:81-87 | the metadata become SetTrackingOf of the old ones; compass targets unchanged |
| Compass.CompassHelper.UpdateCompass | plugin/src/main/kotlin/ca/allanwang/minecraft/toolbox/Compass.kt:94-99 | exactly the online trackers of the mover point at the mover's location, other compasses and all metadata unchanged |
| Compass.FollowerNotUpdated | plugin/src/main/kotlin/ca/allanwang/minecraft/toolbox/Compass.kt:84-99 | as written, player 1 following player 2 is missing from 2's trackers, so 2 moving leaves 1's compass unset |
| Compass.FollowerUpdated | plugin/src/main/kotlin/ca/allanwang/minecraft/toolbox/Compass.kt:81-99 | corrected, the same steps point player 1's compass at player 2's location |

## Left out

- `plugin/.../core/PointsInPolygon.kt`: a superseded copy of the resolver. Its loops run over inclusive ranges past the end of its grid, and its `groupBySet` duplicates `Ext.kt`.
- Thread safety of Kotlin `lazy`: `pointsInPolygon()` is modelled as sequential, at-most-once evaluation that caches only on success.
- The nested box of `PolygonData` is taken as a value snapshot of the bounds when the object is made. Later `bind` calls on a shared box are not reflected.
- `Array(n)` with a negative size: the constructor requires the exclusive sizes to be non-negative, where Kotlin would throw.
- 32-bit overflow of coordinates, sizes and products (`sizeX * sizeY * sizeZ`, `points.size * ...`): integers are unbounded. Only `toIntOrNull`'s range check is modelled.
- `toLowerCase(Locale.ENGLISH)` and `startsWith(ignoreCase = true)` are modelled on ASCII letters only.
- Decimal.ParseInt: only the ASCII digits '0' to '9' count as digits. The JVM's `toIntOrNull` reads a digit through `Character.digit`, which also accepts other Unicode decimal digits such as U+FF15 or U+0665. Text holding those is null here but a number in Kotlin.
- Text.LexLess: compares Unicode scalar values, where the JVM compares UTF-16 code units. The two orders differ only on strings holding characters beyond U+FFFF.
- Text.Lower: case folding beyond ASCII is not modelled, because the tree's names are ASCII.
- World access: `world.getBlockAt`, setting `Material`, `sender.blockBelow`, the logger. The sweeps return the block coordinates they would hand to the action.
- Path discovery (`TerraformHelper.pointsInPolygon`) is Bukkit block walking plus a dispatcher switch. Its answer is a parameter (`points`, `None` when no valid polygon is found).
- `untilFirstNull()` has no definition in the repository. It is read as its name says: the values before the first null.
- `max(a, b, c)` of three values is read as Kotlin's standard `maxOf`.
- `echo` output is modelled as the announced count in `Work`. `fail` is modelled as a `Failure` value.
- The coroutine launch in `handleCommand` is modelled as naming the node and context whose command would run.
- `help`, `helpArgs` and usage text are not modelled.
- Overridden `tabComplete` bodies other than fixed lists are not modelled: only fixed lists and the default filter are.
- Compass beacons (`handleBeacon`, `showBeacon`, `isBeacon`, `deleteBeacon`, the two event checks) mutate world blocks and react to Bukkit events. They are not modelled.
- Bukkit metadata values are not modelled. Each player's `KEY_TRACKERS` and `KEY_TRACKING` are map entries, and players are their UUIDs.
- `server.getPlayer(uuid)` is the `online` set parameter.
- The `Follow` and `Reset` command bodies are not modelled beyond the command-tree example: they are single calls to `setTracking`.
- Dependency injection, the database, plugin lifecycle and event subscription are plumbing, not logic.
- Terraform.PathWork: a negative height never reaches the sweep, because `height()` rejects it; `Announced` is only constrained for non-negative heights.

## Findings

| source | as written | input that shows it | evidently intended | confidence | as-written member | corrected member |
|---|---|---|---|---|---|---|
| plugin/src/main/kotlin/ca/allanwang/minecraft/toolbox/Compass.kt:84-86 | `setTracking(player, q)` adds `q`'s own id to `q`'s trackers | player 1 follows player 2, then player 2 moves: player 1's compass is not updated | the follower's id joins the target's trackers, so the target's moves reach the follower's compass | not executed | Compass.SetTrackingAsWrittenInconsistent, Compass.FollowerNotUpdated | Compass.SetTrackingConsistent, Compass.CompassHelper.SetTracking, Compass.FollowerUpdated |
| plugin/src/main/kotlin/ca/allanwang/minecraft/toolbox/node/Terraform.kt:172 | the count announced is `points.size * (yRange.last - yRange.first)` | 10 path points and depth 5: "-50 blocks" going down and "50 blocks" going up, while 60 blocks are visited | one block per path point per level: `points.size * (height + 1)` | not executed | Terraform.AnnouncedAsWrittenMiscounts | Terraform.PathLevelsWork, Terraform.PathWork |
| base/src/main/kotlin/ca/allanwang/minecraft/toolbox/base/MctNode.kt:36-37 | `handleCommand` returns false, launching nothing, as soon as no argument is left, even at a sub-command | `/mct compass reset`: the walk reaches `reset` with no arguments, so `reset` never runs | a sub-command reached with no arguments runs its own command; only the root without arguments declines | not executed | Nodes.ResetWithoutArguments, Nodes.MctNode.HandleCommandAsWritten | Nodes.MctNode.HandleCommand |
| core/src/test/kotlin/ca/allanwang/minecraft/toolbox/core/PolygonDataTest.kt:151-182 | `complexExtract1` expects `pointsInPolygon()` on `path1` to return fourteen points, and `complexParseAll` expects `checkParsePolygon`, which calls `pointsInPolygon()`, not to throw on `path1` or `path2`; the resolver (core/.../PolygonData.kt:97-99) throws on both | `path1`: the path turns a corner at (7, 4); neither sweep resolves that cell, so the resolve fails and no points are returned | `pointsInPolygon()` returns the cells strictly inside the path: on `path1` exactly the fourteen listed points, the cells its grid marks '-'. The source gives no corrected resolver to model, so the intended half is this independent definition of the answer, proved for `path1` | not executed | PolygonTestGrid.ComplexExtract1, PolygonTestGrid.ComplexParsePath2, PolygonSweep.CornerFails | PolygonTestGrid.Extract1Enclosed, PolygonTestGrid.EnclosedByPath1 |

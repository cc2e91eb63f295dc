# Verified models of the robot workspace's algorithms

This project models, in Dafny, the algorithms of a ROS 2 robot workspace that carry real invariants, and proves what they
are relied on for. `dafny verify dfyconfig.toml` checks everything.

| part | files |
|---|---|
| Costmap inflation: level table, bucketed wavefront, costs, the layer itself | `InflationLevels`, `InflationWave`, `InflationOrder`, `InflationCoverage`, `InflationCosts`, `InflationLayer` (with `GridGeometry`, `Sorting`) |
| Costmap and voxel grid: addressing, rolling window, line tracing, polygon fill | `RowMajor`, `Costmap2D`, `VoxelLayer`, `Bresenham`, `ConvexFill`, `FillGeometry`, `PolygonCost` (with `IntProducts`) |
| Collision monitor: point in polygon, simulated collision time, choice of velocity, publishing | `Polygon`, `PolygonGeometry`, `ConvexPolygon`, `CollisionTime`, `CollisionLocality`, `SimulatedMotion`, `CollisionMonitor`, `SafetyZones`, `MonitorNode` (with `RealProducts`) |
| `mkgmtime` | `Calendar`, `Mkgmtime` |
| Dual-GNSS heading node | `Circle`, `RearPairing`, `HeadingNode`, `HeadingRuns`, `HeadingHistory` |
| MPPI path client | `PathClient`, `PathGoals` |
| Text and recorded or streamed data | `ArrayParser`, `NumeralGrammar`, `BagFilter`, `SerialBridge`, `SerialRuns`, `SerialReads`, `SerialDistances` |

Where the program changes fields or arrays step by step, the model is a class or a method with loops, and its `ensures`
equates the new state with a function of the old one. The theorems about whole runs are lemmas about those functions:
`Drain` and `Inflate` for the wave, `Run` for the nodes, `Feeds` for the serial stream, `Decide` for the polygons. What
those functions compute is in turn stated without them: in `SimulatedMotion`, `SafetyZones`, `HeadingHistory`, `PathGoals`,
`NumeralGrammar` and `SerialDistances`, and beside them in the other files.
Callbacks are atomic events; clocks, library functions (square root, arc tangent, text to number, projection) and
everything received are parameters; everything sent or published is appended to a log.

Results that are not what one might expect from the program or its comments:

- A comment in the inflation layer warns that the bin being iterated might grow. It never does:
  `InflationOrder.BinOnlyShrinks`.
- The collision monitor's velocity can depend on the order of the polygons: exactly when the command moves, no polygon stops
  it, and the slowest limits asked for are r and -r with 0 < r < 1 (`CollisionMonitor.OrderMattersExactly`). That takes a
  negative slowdown ratio; it may conflict with a positive one or with an approach polygon.
- The collision time is tested with `>=` at rest and with `>` while moving. `CollisionLocality.RestTestMatters` says when
  this matters; an approach polygon that tolerates no points (`max_points` 0) reports 0 seconds even when there are none
  (`CollisionLocality.NoPointsNoCollision`).
- For a convex polygon the parity test agrees with orientation off its edge lines (`ConvexPolygons.ConvexTest`); points on
  those lines may be counted on either side. Any polygon is decided by the triangles of its fan, combined by parity.
- Filling a convex polygon of the costmap leaves out no cell of its convex hull (`FillGeometry.HullFilled`), although the
  traced outline is up to half a cell off its edges; it may add cells up to half a cell outside.
- The segment count of the bag converter can exceed the number of segments: `BagFilter.SegmentsOvercounted`.
  `BagFilter.SegmentsCountedExactly` says for which bags it does not.
- A failed number in `parseVVF` ends the loop with the message about an unterminated string, whatever brackets follow:
  `ArrayParser.FailedNumberEnds`. `ArrayParser.SuccessExactly` says which inputs are accepted.
- An encoder count that reads as infinite, or a zero poll period, raises an exception that the line handler does not catch;
  lines read together with it then wait in the buffer until the next read (`SerialRuns.InfiniteCountStalls`). A read,
  of at most 256 bytes, stops behind the next such line, so read boundaries do not matter for exactly those streams in
  which for no positive q at least q lines raise, the last line not counted, that end in the last 256 q bytes
  (`SerialReads.FinishedExactly`, `SerialReads.ChunkingIrrelevant`).
- A step of infinite time has speed 0, so the distance covered in it is missing from the sum. It comes from a line whose time
  reads as plus infinity after one whose time did not, or as anything but minus infinity after minus infinity, no time
  being NaN (`SerialDistances.InfiniteTimeMisses`).

## Model

| member | source | states |
|---|---|---|
| Sorting.SortSorts | src/navigation2/nav2_costmap_2d/plugins/inflation_layer.cpp:406-411 | the sort of the offsets is a permutation in non-decreasing distance order |
| InflationLevels.SortedDisc | src/navigation2/nav2_costmap_2d/plugins/inflation_layer.cpp:395-411 | the sorted list holds every offset of the disc of radius r, nothing else, by squared length |
| InflationLevels.RankOrdersNorms | src/navigation2/nav2_costmap_2d/plugins/inflation_layer.cpp:413-428 | on offsets that occur, levels are ordered exactly as squared distances, and equal exactly when they are |
| InflationLevels.RankStep | src/navigation2/nav2_costmap_2d/plugins/inflation_layer.cpp:416-425 | two lengths with none in between have consecutive levels |
| InflationLevels.NoLengthBetween | src/navigation2/nav2_costmap_2d/plugins/inflation_layer.cpp:413-424 | no squared length falls strictly between neighbours of the sorted disc, so one increment per change of length is enough |
| InflationLevels.NextLevel | src/navigation2/nav2_costmap_2d/plugins/inflation_layer.cpp:416-425 | along the sorted disc the level stays or rises by one, exactly when the length stays or changes |
| InflationLevels.NumberLevels | src/navigation2/nav2_costmap_2d/plugins/inflation_layer.cpp:413-428 | the in-place table numbers every offset of the disc by the number of smaller lengths |
| InflationLevels.GenerateIntegerDistances | src/navigation2/nav2_costmap_2d/plugins/inflation_layer.cpp:390-428 | the whole table for the cached radius, and the number of bins it needs |
| InflationOrder.AdjacentRows | src/navigation2/nav2_costmap_2d/plugins/inflation_layer.cpp:295-307 | comparing the sources of two adjacent rows of the wave: a source that wins a near corner of a unit square and loses a side keeps winning toward the far corner |
| InflationOrder.NearerSettled | src/navigation2/nav2_costmap_2d/plugins/inflation_layer.cpp:253-309 | when a cell is popped for an obstacle, its neighbours nearer to that obstacle are already handled at least as well |
| InflationOrder.NewEntriesAreLater | src/navigation2/nav2_costmap_2d/plugins/inflation_layer.cpp:329-350 | cells offered by a popped cell are strictly farther from its source and go to a bin after the one being drained |
| InflationOrder.BinOnlyShrinks | src/navigation2/nav2_costmap_2d/plugins/inflation_layer.cpp:253-262 | the bin being drained never receives an entry while it is iterated |
| InflationOrder.PopKeeps | src/navigation2/nav2_costmap_2d/plugins/inflation_layer.cpp:263-265 | skipping an entry whose cell was already seen keeps the wave invariant |
| InflationOrder.HandleKeeps | src/navigation2/nav2_costmap_2d/plugins/inflation_layer.cpp:253-309 | handling a cell keeps the whole wave invariant: drained bins stay empty, every entry has a nearer handled parent, every handled source is a scanned obstacle in range |
| InflationOrder.HandleKeepsOrder | src/navigation2/nav2_costmap_2d/plugins/inflation_layer.cpp:253-309 | each cell is handled at most once, in non-decreasing distance from its recorded source |
| InflationOrder.LevelOrder | src/navigation2/nav2_costmap_2d/plugins/inflation_layer.cpp:253-258 | bins are in distance order: a lower bin holds exactly the shorter distances |
| InflationOrder.LevelInRange | src/navigation2/nav2_costmap_2d/plugins/inflation_layer.cpp:342-347 | every in-radius cell has a bin inside the table |
| InflationOrder.DrainKeeps | src/navigation2/nav2_costmap_2d/plugins/inflation_layer.cpp:253-309 | from any bin on, the run ends with every bin empty and the invariant and order intact: whatever is queued is processed in the same cycle |
| InflationWave.NeighbourEntries | src/navigation2/nav2_costmap_2d/plugins/inflation_layer.cpp:294-306 | the four neighbour calls add one entry for exactly each unseen neighbour on the map and within the radius, in the bin of its distance |
| InflationWave.HandleShrinks | src/navigation2/nav2_costmap_2d/plugins/inflation_layer.cpp:253-309 | each newly handled cell shrinks the set of unhandled cells, which bounds the run |
| InflationCoverage.InflateSound | src/navigation2/nav2_costmap_2d/plugins/inflation_layer.cpp:226-309 | at the end all bins are empty, no cell is listed twice, and every recorded source is a scanned obstacle within the Euclidean radius |
| InflationCoverage.ManhattanCovered | src/navigation2/nav2_costmap_2d/plugins/inflation_layer.cpp:226-309 | every cell on the map within Manhattan distance of the radius of a scanned obstacle is handled, from a source no farther than that |
| InflationCoverage.SingleObstacleExact | src/navigation2/nav2_costmap_2d/plugins/inflation_layer.cpp:226-309 | around a single obstacle exactly the Euclidean disc is handled |
| InflationCosts.CostFalls | src/navigation2/nav2_costmap_2d/include/nav2_costmap_2d/inflation_layer.hpp:148-162 | for any falloff below the inscribed cost that does not grow: cost does not grow with distance and is lethal only at distance 0 |
| InflationCosts.ExponentialFalls | src/navigation2/nav2_costmap_2d/include/nav2_costmap_2d/inflation_layer.hpp:156-160 | the scaled exponential cut to a whole number lies between 0 and 252 and does not grow with distance |
| InflationCosts.ExponentialStarts | src/navigation2/nav2_costmap_2d/include/nav2_costmap_2d/inflation_layer.hpp:156-160 | it is 252 where the inscribed radius ends |
| InflationCosts.SourceCostModelled | src/navigation2/nav2_costmap_2d/include/nav2_costmap_2d/inflation_layer.hpp:148-162 | the exponential curve is such a falloff, and with it the modelled cost is the formula of the source at every distance |
| InflationCosts.ScanFromFinds | src/navigation2/nav2_costmap_2d/plugins/inflation_layer.cpp:226-251 | from any point of the scan on, exactly the source cells still ahead are found |
| InflationCosts.ScanFinds | src/navigation2/nav2_costmap_2d/plugins/inflation_layer.cpp:216-251 | the scan of the grown and clipped box finds exactly its source cells |
| InflationCosts.PassIsConservative | src/navigation2/nav2_costmap_2d/plugins/inflation_layer.cpp:275-293 | cells outside the box are unchanged, known cells never decrease, an unknown cell stays unknown or takes a cost its flag allows |
| InflationCosts.PassCovers | src/navigation2/nav2_costmap_2d/plugins/inflation_layer.cpp:216-309 | a known cell of the box near any source of the map ends at least as expensive as the cost at its Manhattan distance; so does an unknown one, which becomes known, if that cost is inscribed, or not free and unknown cells are inflated |
| InflationCosts.PassComesFromSource | src/navigation2/nav2_costmap_2d/plugins/inflation_layer.cpp:216-309 | every cell ends with its old cost or with the cost at its distance from some source within the radius |
| InflationCosts.SingleSourceExact | src/navigation2/nav2_costmap_2d/plugins/inflation_layer.cpp:216-309 | with one source on the map the result is exact: the larger cost on known cells of the box within the Euclidean radius, the new one on unknown cells if it tells, nothing changed elsewhere |
| InflationCosts.InReachIsScanned | src/navigation2/nav2_costmap_2d/plugins/inflation_layer.cpp:216-251 | every source that reaches into the box along both axes is scanned |
| InflationCosts.SourceIs | src/navigation2/nav2_costmap_2d/plugins/inflation_layer.cpp:244-250 | sources are lethal cells, and unknown ones if the flag says so |
| InflationCosts.PassKeepsSources | src/navigation2/nav2_costmap_2d/plugins/inflation_layer.cpp:216-293 | a pass neither creates nor removes obstacle sources |
| InflationCosts.PassIsIdempotent | src/navigation2/nav2_costmap_2d/plugins/inflation_layer.cpp:216-309 | a second pass over its own output changes nothing |
| InflationLayers.FillDistances | src/navigation2/nav2_costmap_2d/plugins/inflation_layer.cpp:363-374 | the distance cache holds the exact (squared) distance of every offset |
| InflationLayers.FillCosts | src/navigation2/nav2_costmap_2d/plugins/inflation_layer.cpp:376-380 | the cost cache holds the cost of every offset |
| InflationLayers.DrainStep | src/navigation2/nav2_costmap_2d/plugins/inflation_layer.cpp:256-309 | one turn of the inner loop is one step of the wave, and the bin gets one entry shorter |
| InflationLayers.InflationLayer.constructor | src/navigation2/nav2_costmap_2d/plugins/inflation_layer.cpp:61-129 | a new layer is ready for a pass |
| InflationLayers.InflationLayer.ComputeCaches | src/navigation2/nav2_costmap_2d/plugins/inflation_layer.cpp:352-388 | caches, level table and number of bins fit the current radius |
| InflationLayers.InflationLayer.DistanceLookup | src/navigation2/nav2_costmap_2d/include/nav2_costmap_2d/inflation_layer.hpp:189-196 | the lookup is in range and gives the (squared) distance between the two cells |
| InflationLayers.InflationLayer.CostLookup | src/navigation2/nav2_costmap_2d/include/nav2_costmap_2d/inflation_layer.hpp:206-213 | the lookup is in range and gives the cost at the distance between the two cells |
| InflationLayers.InflationLayer.Enqueue | src/navigation2/nav2_costmap_2d/plugins/inflation_layer.cpp:329-350 | queues an unseen in-radius cell in the bin of its distance and nothing else; bin index in range |
| InflationLayers.InflationLayer.MarkAndCost | src/navigation2/nav2_costmap_2d/plugins/inflation_layer.cpp:263-293 | marks the popped cell and writes its blended cost inside the update box only |
| InflationLayers.InflationLayer.ProcessEntry | src/navigation2/nav2_costmap_2d/plugins/inflation_layer.cpp:258-307 | the body of the inner loop does to seen flags, bins and costs what one wave step does |
| InflationLayers.InflationLayer.ScanObstacles | src/navigation2/nav2_costmap_2d/plugins/inflation_layer.cpp:226-251 | queues exactly the sources found, in scan order, at level 0 |
| InflationLayers.InflationLayer.DrainBins | src/navigation2/nav2_costmap_2d/plugins/inflation_layer.cpp:253-309 | the nested loops terminate in the finished wave, written to the master grid |
| InflationLayers.InflationLayer.InflateMaster | src/navigation2/nav2_costmap_2d/plugins/inflation_layer.cpp:226-316 | scan, drain and clear: the map becomes the inflated map and every bin is empty again |
| InflationLayers.InflationLayer.UpdateCosts | src/navigation2/nav2_costmap_2d/plugins/inflation_layer.cpp:190-317 | one pass inflates the master grid within the box, or leaves it alone when there is nothing to do; every index in range |
| RowMajor.IndexToCellInverts | src/navigation2/nav2_costmap_2d/include/nav2_costmap_2d/costmap_2d.hpp:211-226 | an address converts back to the cell it came from |
| RowMajor.IndexInjective | src/navigation2/nav2_costmap_2d/include/nav2_costmap_2d/costmap_2d.hpp:211-214 | different cells have different addresses |
| RowMajor.CellOfIndex | src/navigation2/nav2_costmap_2d/include/nav2_costmap_2d/costmap_2d.hpp:222-226 | every address of the array belongs to a cell |
| RowMajor.CopyMapRegion | src/navigation2/nav2_costmap_2d/include/nav2_costmap_2d/costmap_2d.hpp:381-399 | exactly the region of the destination takes the source window, the rest is unchanged |
| Costmap.TakeWindow | src/navigation2/nav2_costmap_2d/src/costmap_2d.cpp:347-365 | the temporary copy is the part of the map still visible |
| Costmap.PutWindow | src/navigation2/nav2_costmap_2d/src/costmap_2d.cpp:366-380 | a cleared map with the copy placed back is the shifted map |
| Costmap.WindowPlaced | src/navigation2/nav2_costmap_2d/src/costmap_2d.cpp:347-380 | clipping both windows, for any offset, gives new cell (x, y) = old cell (x + ox, y + oy) where that existed and the default elsewhere |
| Costmap.ShiftKeepsWorld | src/navigation2/nav2_costmap_2d/src/costmap_2d.cpp:332-341 | a surviving cell keeps its world position |
| Costmap.ShiftKeepsPlaces | src/navigation2/nav2_costmap_2d/src/costmap_2d.cpp:330-384 | after a shift the cell at a place in the world holds what the old map held at that place, and the default where it did not reach |
| Costmap.OriginStopsShort | src/navigation2/nav2_costmap_2d/src/costmap_2d.cpp:332-341 | the origin moves toward the request and stops less than a cell short of it, never beyond |
| Costmap.WorldToMapIsCell | src/navigation2/nav2_costmap_2d/src/costmap_2d.cpp:281-300 | a world point maps to a cell exactly when it lies in the square of that cell on the map |
| Costmap.ShiftsCompose | src/navigation2/nav2_costmap_2d/src/costmap_2d.cpp:330-384 | two shifts in a row keep what both windows show, at its world position |
| Costmap.Costmap2D.constructor | src/navigation2/nav2_costmap_2d/src/costmap_2d.cpp:49-60 | a new map holds the default everywhere |
| Costmap.Costmap2D.ResetMaps | src/navigation2/nav2_costmap_2d/src/costmap_2d.cpp:124-128 | every cell takes the default |
| Costmap.Costmap2D.ResetMapToValue | src/navigation2/nav2_costmap_2d/src/costmap_2d.cpp:135-143 | exactly the cells of the half-open window take the value; every address in range |
| Costmap.Costmap2D.UpdateOrigin | src/navigation2/nav2_costmap_2d/src/costmap_2d.cpp:330-384 | origin and cells after a shift of any size and sign |
| VoxelLayers.VoxelLayer.UpdateOrigin | src/navigation2/nav2_costmap_2d/plugins/voxel_layer.cpp:410-475 | costs and voxel columns are both shifted, by one and the same offset |
| VoxelLayers.VoxelLayer.ResetMaps | src/navigation2/nav2_costmap_2d/plugins/voxel_layer.cpp:134-142 | costs take the default and every column becomes unknown |
| VoxelLayers.UnknownColumn | src/navigation2/nav2_costmap_2d/plugins/voxel_layer.cpp:134-142 | an unknown column marks every voxel in its low half and none in its high half |
| VoxelLayers.ShiftKeepsColumns | src/navigation2/nav2_costmap_2d/plugins/voxel_layer.cpp:410-475 | whatever relates each cost to its voxel column before the shift relates them after it |
| Bresenham.WalkVisits | src/navigation2/nav2_costmap_2d/include/nav2_costmap_2d/costmap_2d.hpp:489-507 | from any point of the walk on: to the end of the line through touching cells, in its box, within half a cell of it, skipping no column and no row |
| Bresenham.LineVisits | src/navigation2/nav2_costmap_2d/include/nav2_costmap_2d/costmap_2d.hpp:429-507 | a traced line runs from end to end through touching cells, in its box, within half a cell of the ideal line, and skips no column and no row |
| Bresenham.CellIsClose | src/navigation2/nav2_costmap_2d/include/nav2_costmap_2d/costmap_2d.hpp:489-507 | the error term is the distance off the ideal line and stays within half a cell |
| Bresenham.AdvancedBetween | src/navigation2/nav2_costmap_2d/include/nav2_costmap_2d/costmap_2d.hpp:440-456 | the start moved by the shortest length lies between the two ends |
| Bresenham.AdvancedShare | src/navigation2/nav2_costmap_2d/include/nav2_costmap_2d/costmap_2d.hpp:440-456 | the start is moved by the share of the shortest length in the distance, cut to a whole cell |
| Bresenham.StepShare | src/navigation2/nav2_costmap_2d/include/nav2_costmap_2d/costmap_2d.hpp:462-482 | the number of steps is the share of the longest length in the distance, cut to a whole number, and never more than the whole line |
| Bresenham.Bresenham2D | src/navigation2/nav2_costmap_2d/include/nav2_costmap_2d/costmap_2d.hpp:489-507 | the address walk pushes exactly the cells of the line, up to the longest length |
| Bresenham.TraceFrom | src/navigation2/nav2_costmap_2d/include/nav2_costmap_2d/costmap_2d.hpp:456-481 | the dominant direction chosen, the cells of the line from the start up to the given number of steps |
| Bresenham.RaytraceLimited | src/navigation2/nav2_costmap_2d/include/nav2_costmap_2d/costmap_2d.hpp:429-482 | nothing below the shortest length; else the start of the line from the moved start, its length cut to the share of the longest; every address in range |
| Bresenham.LimitsDefault | src/navigation2/nav2_costmap_2d/include/nav2_costmap_2d/costmap_2d.hpp:429-482 | with no shortest length and a longest that does not bind it is the whole line |
| Bresenham.RaytraceLine | src/navigation2/nav2_costmap_2d/include/nav2_costmap_2d/costmap_2d.hpp:429-482 | that whole line between two cells of the map, as the polygon outline traces it |
| ConvexFill.PolygonOutlineCells | src/navigation2/nav2_costmap_2d/src/costmap_2d.cpp:415-430 | the outline is the lines between consecutive vertices, closed |
| ConvexFill.ClosedPathHitsTwice | src/navigation2/nav2_costmap_2d/src/costmap_2d.cpp:415-430 | a closed polygon passes over every column it spans at least twice |
| ConvexFill.OutlineCoversTwice | src/navigation2/nav2_costmap_2d/src/costmap_2d.cpp:415-445 | the outline has at least two entries in every column it spans |
| ConvexFill.SwapStep | src/navigation2/nav2_costmap_2d/src/costmap_2d.cpp:445-459 | each swap keeps the cells and lowers the sum of prefix sums of the columns |
| ConvexFill.SortByColumn | src/navigation2/nav2_costmap_2d/src/costmap_2d.cpp:444-459 | the backtracking swap loop terminates with a permutation sorted by column |
| ConvexFill.ScanColumn | src/navigation2/nav2_costmap_2d/src/costmap_2d.cpp:468-489 | the scan of a column finds its lowest and highest cell and the start of the next column, reading the growing list in range |
| ConvexFill.FillColumns | src/navigation2/nav2_costmap_2d/src/costmap_2d.cpp:461-498 | the outline stays in front, and the list holds exactly the cells between lowest and highest outline cell of each column |
| ConvexFill.ConvexFillCells | src/navigation2/nav2_costmap_2d/src/costmap_2d.cpp:432-499 | nothing below three vertices, otherwise exactly the column-wise hull of the outline |
| FillGeometry.NearCrossing | src/navigation2/nav2_costmap_2d/include/nav2_costmap_2d/costmap_2d.hpp:429-507 | in every column an edge passes, some traced cell is less than one cell off the edge in height |
| FillGeometry.BetweenEdgesFilled | src/navigation2/nav2_costmap_2d/src/costmap_2d.cpp:415-499 | for any polygon: a cell of a column with an edge at its height or below and one at its height or above is filled |
| FillGeometry.HullFilled | src/navigation2/nav2_costmap_2d/src/costmap_2d.cpp:415-499 | for a convex polygon, given either way round: every cell of the convex hull of the vertices is filled |
| FillGeometry.FilledNearHull | src/navigation2/nav2_costmap_2d/src/costmap_2d.cpp:415-499 | for any polygon: no filled cell lies more than half a cell, along an axis, beyond a half-plane that holds the vertices |
| PolygonCost.HullInside | src/navigation2/nav2_costmap_2d/src/costmap_2d.cpp:386-413 | every filled cell of a polygon on the map is on the map |
| PolygonCost.SetConvexPolygonCost | src/navigation2/nav2_costmap_2d/src/costmap_2d.cpp:386-413 | refuses a polygon with a vertex off the map and changes nothing; otherwise sets exactly the covered cells |
| PolygonCost.AcceptedExactly | src/navigation2/nav2_costmap_2d/src/costmap_2d.cpp:386-404 | a polygon is accepted exactly when every vertex lies in the rectangle of the map |
| PolygonCost.VertexCell | src/navigation2/nav2_costmap_2d/src/costmap_2d.cpp:386-404 | each vertex becomes the cell whose square holds it |
| PolygonCost.CoversHull | src/navigation2/nav2_costmap_2d/src/costmap_2d.cpp:386-445 | fewer than three vertices cover nothing; a convex polygon covers every cell of its hull; no polygon covers a cell more than half a cell beyond a half-plane that holds its vertices |
| Polygons.IsPointInside | src/navigation2/nav2_collision_monitor/src/polygon.cpp:387-417 | the loop computes the parity of crossed edges and never divides by zero |
| Polygons.CrossesByOrient | src/navigation2/nav2_collision_monitor/src/polygon.cpp:399-411 | an edge is crossed exactly when it goes up with the point on its left or down with the point on its right |
| Polygons.CrossesEitherWay | src/navigation2/nav2_collision_monitor/src/polygon.cpp:399-411 | crossing does not depend on the direction of the edge |
| Polygons.InsideRotates | src/navigation2/nav2_collision_monitor/src/polygon.cpp:387-417 | the start vertex does not matter |
| Polygons.InsideReverses | src/navigation2/nav2_collision_monitor/src/polygon.cpp:387-417 | the direction of the vertices does not matter |
| Polygons.InsideCuts | src/navigation2/nav2_collision_monitor/src/polygon.cpp:387-417 | cutting along any chord: inside the whole is inside the one part xor inside the other |
| Polygons.InsideByTriangles | src/navigation2/nav2_collision_monitor/src/polygon.cpp:387-417 | inside any polygon is the parity over the triangles of its fan |
| PolygonGeometry.InsideIsInHull | src/navigation2/nav2_collision_monitor/src/polygon.cpp:387-417 | an inside point lies in every half-plane that holds all vertices, so in the convex hull |
| PolygonGeometry.InsideIsInBox | src/navigation2/nav2_collision_monitor/src/polygon.cpp:387-417 | outside the bounding box the answer is false |
| PolygonGeometry.InsideIsInReach | src/navigation2/nav2_collision_monitor/src/polygon.cpp:387-417 | no point farther out than every vertex is inside |
| ConvexPolygons.ConvexTest | src/navigation2/nav2_collision_monitor/src/polygon.cpp:387-417 | for any convex counter-clockwise polygon, three or more vertices on one line allowed, and a point off its edge lines: inside exactly when left of every edge |
| ConvexPolygons.OneUpward | src/navigation2/nav2_collision_monitor/src/polygon.cpp:387-417 | with a point left of every edge, such a polygon passes its height upward on no second edge |
| ConvexPolygons.BothSides | src/navigation2/nav2_collision_monitor/src/polygon.cpp:387-417 | any closed polygon, convex or not, with a point left of every edge has vertices below and not below the point |
| ConvexPolygons.TriangleTest | src/navigation2/nav2_collision_monitor/src/polygon.cpp:387-417 | in particular for a triangle: inside exactly when left of all three edges |
| CollisionTime.TransformPoints | src/navigation2/nav2_collision_monitor/src/kinematics.cpp:22-42 | every point is replaced, in place, by its coordinates in the frame of the pose |
| CollisionTime.Simulation.ProjectState | src/navigation2/nav2_collision_monitor/src/kinematics.cpp:44-68 | pose and velocity advance together by one step |
| CollisionTime.Simulation.constructor | src/navigation2/nav2_collision_monitor/src/polygon.cpp:179-181 | the simulation starts at the robot itself with the commanded velocity |
| CollisionTime.PolygonPointsInside | src/navigation2/nav2_collision_monitor/src/polygon.cpp:164-173 | the number of points inside a polygon |
| CollisionTime.CirclePointsInside | src/navigation2/nav2_collision_monitor/src/circle.cpp:61-71 | the number of points nearer than the radius of a circle |
| CollisionTime.GetPointsInside | src/navigation2/nav2_collision_monitor/src/polygon.cpp:164-173 | the number of points inside, by the class of the zone |
| CollisionTime.StepsWithinHorizon | src/navigation2/nav2_collision_monitor/src/polygon.cpp:192 | the loop runs for exactly the step times within the horizon, both ends included |
| CollisionTime.GetCollisionTime | src/navigation2/nav2_collision_monitor/src/polygon.cpp:175-208 | 0 when enough points are inside at rest, else the start of the first colliding step, else -1 |
| SimulatedMotion.FrameIsView | src/navigation2/nav2_collision_monitor/src/kinematics.cpp:22-42 | the transformed point is where the robot sees the point: moved back by the pose and turned forth it is the point again |
| SimulatedMotion.VelocityTurnsAlong | src/navigation2/nav2_collision_monitor/src/kinematics.cpp:44-68 | at every step the heading is turning speed times time and the velocity is the command turned by it |
| SimulatedMotion.StepDrivesCommand | src/navigation2/nav2_collision_monitor/src/kinematics.cpp:44-68 | in each step the robot moves, in its own frame, by its command for the time of the step |
| SimulatedMotion.StraightOn | src/navigation2/nav2_collision_monitor/src/kinematics.cpp:44-68 | without turning the robot is at n dt v after n steps |
| SimulatedMotion.CircleHolds | src/navigation2/nav2_collision_monitor/src/circle.cpp:61-71 | a circle holds exactly the points nearer than its radius |
| SimulatedMotion.CountsHeld | src/navigation2/nav2_collision_monitor/src/polygon.cpp:164-173 | the count is the number of points that are inside |
| SimulatedMotion.ZoneIsHeld | src/navigation2/nav2_collision_monitor/src/polygon.cpp:195-200 | the points counted after a step are those that the robot, at its pose, sees inside its zone |
| SimulatedMotion.CollisionTimeExactly | src/navigation2/nav2_collision_monitor/src/polygon.cpp:175-208 | the returned time: 0 with enough points in the zone at rest, else the start of the first step within the horizon that ends with too many points in the zone of the moved robot, else -1 |
| CollisionLocality.FrameIsIsometry | src/navigation2/nav2_collision_monitor/src/kinematics.cpp:22-42 | changing frames keeps distances between points |
| CollisionLocality.SpeedKept | src/navigation2/nav2_collision_monitor/src/kinematics.cpp:44-68 | every step keeps the linear speed |
| CollisionLocality.Displacement | src/navigation2/nav2_collision_monitor/src/kinematics.cpp:44-68 | after n steps the robot is within n dt |v| of where it started |
| CollisionLocality.FarPointNeverInside | src/navigation2/nav2_collision_monitor/src/polygon.cpp:190-204 | a point beyond the reach of the polygon plus |v| (horizon + dt) is outside at every simulated pose |
| CollisionLocality.CollisionTimeIsLocal | src/navigation2/nav2_collision_monitor/src/polygon.cpp:175-208 | deleting all such points never changes the returned time |
| CollisionLocality.FirstHitIsFirst | src/navigation2/nav2_collision_monitor/src/polygon.cpp:190-207 | the time is that of the first step, within the horizon, that collides; -1 exactly when none does |
| CollisionLocality.NoPointsNoCollision | src/navigation2/nav2_collision_monitor/src/polygon.cpp:186-207 | without points the time is -1 exactly when some points are tolerated, and 0 otherwise |
| CollisionLocality.RestTestMatters | src/navigation2/nav2_collision_monitor/src/polygon.cpp:186-204 | counting the tolerated number as a collision at rest but not while moving changes the time exactly when just that many are inside at rest and the first step does not collide |
| CollisionLocality.MorePointsSooner | src/navigation2/nav2_collision_monitor/src/polygon.cpp:175-208 | adding points never makes a collision later or removes it |
| CollisionMonitor.ProcessStopSlowdown | src/navigation2/nav2_collision_monitor/src/collision_monitor_node.cpp:405-432 | one stop or slowdown polygon: the new action, and whether it was changed |
| CollisionMonitor.ProcessApproach | src/navigation2/nav2_collision_monitor/src/collision_monitor_node.cpp:434-458 | one approach polygon: the new action, and whether it was changed |
| CollisionMonitor.DecideAction | src/navigation2/nav2_collision_monitor/src/collision_monitor_node.cpp:363-389 | the loop with its early exit gives the combination over all polygons |
| CollisionMonitor.StopStays | src/navigation2/nav2_collision_monitor/src/collision_monitor_node.cpp:363-370 | the early exit is harmless: polygons after a stop change nothing |
| CollisionMonitor.StopWins | src/navigation2/nav2_collision_monitor/src/collision_monitor_node.cpp:411-419 | a stop at zero results exactly when some enabled stop polygon is triggered |
| SafetyZones.StoppedExactly | src/navigation2/nav2_collision_monitor/src/collision_monitor_node.cpp:411-419 | the robot is stopped, at zero velocity, exactly when the zone of some enabled stop polygon holds more points than it tolerates |
| SafetyZones.MorePointsStillStop | src/navigation2/nav2_collision_monitor/src/collision_monitor_node.cpp:411-419 | more points never take a stop away, whatever the command |
| SafetyZones.SlowsWhenTriggered | src/navigation2/nav2_collision_monitor/src/collision_monitor_node.cpp:411-428 | a slowdown polygon asks for its ratio exactly when it is enabled and its zone holds more points than it tolerates |
| SafetyZones.ApproachesBefore | src/navigation2/nav2_collision_monitor/src/collision_monitor_node.cpp:434-458 | an approach polygon asks for the share of its horizon that the first simulated collision is away, for 0 when enough points are inside at rest, and for nothing without a collision |
| SafetyZones.KindTells | src/navigation2/nav2_collision_monitor/src/collision_monitor_node.cpp:405-458 | the kind of the action: nobody changed the command; a stop; or a polygon of that kind asked for the command scaled in all three components |
| CollisionMonitor.SlowestWins | src/navigation2/nav2_collision_monitor/src/collision_monitor_node.cpp:420-428 | without a stop the result is the command or a triggered limit, and no slower one was asked for |
| CollisionMonitor.NeverFaster | src/navigation2/nav2_collision_monitor/src/collision_monitor_node.cpp:363-389 | the result is never faster than the command |
| CollisionMonitor.CommandOrSlower | src/navigation2/nav2_collision_monitor/src/collision_monitor_node.cpp:405-458 | without a stop the result is the command itself, or strictly slower and asked for |
| CollisionMonitor.FrontWins | src/navigation2/nav2_collision_monitor/src/collision_monitor_node.cpp:420-428 | a limit in front that nobody undercuts is the one taken |
| CollisionMonitor.OrderMattersExactly | src/navigation2/nav2_collision_monitor/src/collision_monitor_node.cpp:363-458 | some order changes the velocity exactly when the command moves, nobody stops it, and the slowest limits asked for are r and -r with 0 < r < 1 |
| CollisionMonitor.OrderIrrelevant | src/navigation2/nav2_collision_monitor/src/collision_monitor_node.cpp:363-389 | in all other cases, so always with ratios that are not negative, any order gives the same velocity; a stop never depends on it |
| CollisionMonitor.OppositeRatiosOrderMatters | src/navigation2/nav2_collision_monitor/src/collision_monitor_node.cpp:405-458 | two triggered limits of any kind to r and -r: the first one decides the direction |
| CollisionMonitor.SlowdownAgainstApproach | src/navigation2/nav2_collision_monitor/src/collision_monitor_node.cpp:405-458 | so a negative slowdown ratio can conflict with an approach polygon |
| CollisionMonitor.TieKeepsFirst | src/navigation2/nav2_collision_monitor/src/collision_monitor_node.cpp:420-428 | between equally slow limits the earlier polygon is taken |
| MonitorNode.CollisionMonitorNode.constructor | src/navigation2/nav2_collision_monitor/src/collision_monitor_node.cpp:30-35 | nothing sent, inactive, no previous action |
| MonitorNode.CollisionMonitorNode.OnActivate | src/navigation2/nav2_collision_monitor/src/collision_monitor_node.cpp:73-97 | activation starts processing |
| MonitorNode.CollisionMonitorNode.OnDeactivate | src/navigation2/nav2_collision_monitor/src/collision_monitor_node.cpp:99-122 | deactivation stops processing and forgets the previous action |
| MonitorNode.CollisionMonitorNode.PublishVelocity | src/navigation2/nav2_collision_monitor/src/collision_monitor_node.cpp:160-181 | sends unless stopped for longer than the timeout; the stop time is kept |
| MonitorNode.CollisionMonitorNode.Process | src/navigation2/nav2_collision_monitor/src/collision_monitor_node.cpp:343-403 | one command: decided over the polygons, sent or suppressed, remembered |
| MonitorNode.RunKeepsLog | src/navigation2/nav2_collision_monitor/src/collision_monitor_node.cpp:160-181 | over every history the remembered action agrees with what was sent |
| MonitorNode.LastSentIsRequired | src/navigation2/nav2_collision_monitor/src/collision_monitor_node.cpp:160-181 | over every history, after a command of an active node the last velocity sent is the one required |
| MonitorNode.SilenceIsEarned | src/navigation2/nav2_collision_monitor/src/collision_monitor_node.cpp:160-181 | a call is silent only when zero is required and zeros have been sent since a stop more than the timeout ago |
| MonitorNode.ReactivationSpeaks | src/navigation2/nav2_collision_monitor/src/collision_monitor_node.cpp:99-108 | after deactivation and activation the next command is always sent |
| MonitorNode.SentExactly | src/navigation2/nav2_collision_monitor/src/collision_monitor_node.cpp:160-181 | over every history, the log grows exactly by each command an active node handles, but for zeros more than the timeout after the stop began; an inactive node sends nothing |
| Calendar.YearsFollow | src/gnss_pkg/ublox_gps/src/mkgmtime.c:139-141 | years follow one another with a leap day in exactly the leap years, per the formula of IEEE Std 1003.1-2017 |
| Calendar.MonthLengths | src/gnss_pkg/ublox_gps/src/mkgmtime.c:139-141 | the months have their lengths, February by the leap year |
| Calendar.EpochIs | src/gnss_pkg/ublox_gps/src/mkgmtime.c:139-144 | instant 0 is the start of 1970 |
| Calendar.ClockRuns | src/gnss_pkg/ublox_gps/src/mkgmtime.c:139-144 | hours, minutes and seconds of an instant |
| Calendar.Gmtime | src/gnss_pkg/ublox_gps/src/mkgmtime.c:139-144 | gmtime gives a calendar time whose seconds since the Epoch are the instant |
| Calendar.GmtimeInverts | src/gnss_pkg/ublox_gps/src/mkgmtime.c:139-146 | calendar times and instants correspond one to one |
| Calendar.CompareOrders | src/gnss_pkg/ublox_gps/src/mkgmtime.c:91-104 | comparing fields is comparing instants |
| Mkgmtime.TmComp | src/gnss_pkg/ublox_gps/src/mkgmtime.c:91-104 | the chain of differences is the lexicographic comparison |
| Mkgmtime.MagnitudeBits | src/gnss_pkg/ublox_gps/src/mkgmtime.c:117-124 | the shifting loop ends at the sign bit and counts the magnitude bits |
| Mkgmtime.ProbeBrackets | src/gnss_pkg/ublox_gps/src/mkgmtime.c:146-160 | each wrong guess halves the range around the target; the final decrement covers the one case left over |
| Mkgmtime.MakeGmtime | src/gnss_pkg/ublox_gps/src/mkgmtime.c:106-166 | returns the instant plus the saved seconds when the minute is in the searched range, -1 exactly when no searched instant has the fields; at most 42 comparisons |
| Mkgmtime.InvertsGmtime | src/gnss_pkg/ublox_gps/src/mkgmtime.c:106-166 | every searchable instant is found from its own fields |
| Mkgmtime.SearchedRange | src/gnss_pkg/ublox_gps/src/mkgmtime.c:117-135 | what is searched: all of a time_t of up to 41 bits, 2^40 seconds either way of a wider one |
| Mkgmtime.InvertsGmtime32 | src/gnss_pkg/ublox_gps/src/mkgmtime.c:106-166 | every instant of a 32-bit time_t, from a minute after the earliest on, is found from its own fields |
| Circle.NormalizedRange | src/utm_pkg/utm_pkg/geodesy.py:108-110 | normalised angles lie in [-pi, pi) |
| Circle.NormalizedIsSame | src/utm_pkg/utm_pkg/geodesy.py:108-110 | the normalised angle is a whole number of turns away, and the only such angle in the range |
| Circle.NormalizedIsNearest | src/utm_pkg/utm_pkg/geodesy.py:108-114 | the normalised angle is the smallest representative of its direction |
| Circle.AngleTriangle | src/utm_pkg/utm_pkg/geodesy.py:108-114 | directions obey the triangle inequality |
| RearPairing.InterpolatedRear | src/utm_pkg/utm_pkg/dual_gnss_map_node.py:401-445 | the two scans compute the pairing |
| RearPairing.ScanFindsNeighbours | src/utm_pkg/utm_pkg/dual_gnss_map_node.py:401-412 | among rear fixes in order the scan finds the last one not after and the first one not before the front fix |
| RearPairing.NearestIsFound | src/utm_pkg/utm_pkg/dual_gnss_map_node.py:434-445 | the fallback takes the first of the nearest rear fixes |
| RearPairing.PairChooses | src/utm_pkg/utm_pkg/dual_gnss_map_node.py:401-445 | an equal stamp if there is one, else the neighbours interpolated within the gap, else the nearest within the tolerance, else none |
| RearPairing.EvenMotionInterpolated | src/utm_pkg/utm_pkg/dual_gnss_map_node.py:413-432 | for an antenna in even motion the interpolated fix is where it was |
| RearPairing.InterpolatedQuality | src/utm_pkg/utm_pkg/dual_gnss_map_node.py:413-432 | an interpolated fix is no better than the worse of its two, and with NavSatFix statuses fixed exactly when both are |
| RearPairing.DropFirst | src/utm_pkg/utm_pkg/dual_gnss_map_node.py:401-445 | the oldest rear fix cannot matter once the second is not after the front fix |
| RearPairing.DropLeading | src/utm_pkg/utm_pkg/dual_gnss_map_node.py:401-445 | nor can any number of leading ones before the first kept that is not after it |
| HeadingNode.PairKeepsQueues | src/utm_pkg/utm_pkg/dual_gnss_map_node.py:483-531 | judging a pair leaves the queues alone and does not depend on them |
| HeadingNode.DualGnssMapNode.constructor | src/utm_pkg/utm_pkg/dual_gnss_map_node.py:89-117 | a new node has empty queues and no heading |
| HeadingNode.DualGnssMapNode.JudgePair | src/utm_pkg/utm_pkg/dual_gnss_map_node.py:483-511 | the verdict on a pair, first failing check first |
| HeadingNode.DualGnssMapNode.AcceptPair | src/utm_pkg/utm_pkg/dual_gnss_map_node.py:519-535 | an accepted heading becomes the reference and makes the output valid |
| HeadingNode.DualGnssMapNode.ProcessPair | src/utm_pkg/utm_pkg/dual_gnss_map_node.py:483-531 | one pair: judged, rejected or accepted |
| HeadingNode.DualGnssMapNode.ProcessPending | src/utm_pkg/utm_pkg/dual_gnss_map_node.py:447-472 | the pairing loop: waits, drops, pairs and prunes, front fix by front fix |
| HeadingNode.DualGnssMapNode.RejectFront | src/utm_pkg/utm_pkg/dual_gnss_map_node.py:461-465 | a front fix without a partner is dropped and counted |
| HeadingNode.DualGnssMapNode.MatchFront | src/utm_pkg/utm_pkg/dual_gnss_map_node.py:461-467 | a front fix with a partner leaves its queue, is counted by kind of pairing and judged |
| HeadingNode.DualGnssMapNode.PruneRears | src/utm_pkg/utm_pkg/dual_gnss_map_node.py:468-472 | old rear fixes go, two always stay |
| HeadingNode.DualGnssMapNode.Clear | src/utm_pkg/utm_pkg/dual_gnss_map_node.py:373-391 | a time jump forgets queues and heading and announces the loss of validity |
| HeadingNode.DualGnssMapNode.CheckInput | src/utm_pkg/utm_pkg/dual_gnss_map_node.py:370-393 | a stamp more than a second back restarts everything, then is remembered |
| HeadingNode.DualGnssMapNode.RearCallback | src/utm_pkg/utm_pkg/dual_gnss_map_node.py:348-357 | one rear fix: checked, queued with the oldest making room, pairing tried |
| HeadingNode.DualGnssMapNode.FrontCallback | src/utm_pkg/utm_pkg/dual_gnss_map_node.py:359-368 | the same for a front fix |
| HeadingNode.DualGnssMapNode.PublishStatus | src/utm_pkg/utm_pkg/dual_gnss_map_node.py:709-722 | validity follows the age of the last heading; a timeout forgets the reference |
| HeadingRuns.AcceptedExactly | src/utm_pkg/utm_pkg/dual_gnss_map_node.py:474-531 | a pair is accepted exactly when both fixes are good, the baseline plausible and the yaw rate from the last heading within the limit |
| HeadingHistory.RejectedFor | src/utm_pkg/utm_pkg/dual_gnss_map_node.py:474-511 | the reason given for a rejection is the first check that failed |
| HeadingHistory.PublishedForPair | src/utm_pkg/utm_pkg/dual_gnss_map_node.py:493-535 | what is published about a pair, in order: raw yaw, then the rejection, or validity and the heading with its smoothed yaw |
| HeadingRuns.RateChains | src/utm_pkg/utm_pkg/dual_gnss_map_node.py:505-511 | checking only against the last heading bounds the rate between every two |
| HeadingRuns.StepKeeps | src/utm_pkg/utm_pkg/dual_gnss_map_node.py:348-531 | every callback keeps validity and rate invariants |
| HeadingRuns.RunKeepsInvariant | src/utm_pkg/utm_pkg/dual_gnss_map_node.py:370-531 | over every run valid_state holds exactly when last yaw, last stamp and smoothed yaw are set, and the last published validity agrees |
| HeadingRuns.AcceptedWithinRate | src/utm_pkg/utm_pkg/dual_gnss_map_node.py:505-511 | over every run any two headings accepted since the last reset or timeout have increasing stamps and differ by at most max_yaw_rate times the time between |
| HeadingHistory.RunTells | src/utm_pkg/utm_pkg/dual_gnss_map_node.py:370-393 | over every run the node remembers the clock of the last heading published since the last time jump, and the headings published since validity was lost |
| HeadingHistory.StatusExactly | src/utm_pkg/utm_pkg/dual_gnss_map_node.py:709-722 | over every run, after a status check the output is valid exactly when a heading was published since the last time jump no longer than the timeout ago; otherwise no heading is remembered and the validity last published is false |
| HeadingHistory.PublishedWithinRate | src/utm_pkg/utm_pkg/dual_gnss_map_node.py:505-511 | of the headings published since validity was lost any two are within the yaw rate |
| HeadingHistory.WaitsNoLonger | src/utm_pkg/utm_pkg/dual_gnss_map_node.py:447-472 | a front fix is taken early only when the newest rear fix is not older, given up only when overdue, else paired; one left waiting is not overdue and lacks its partner |
| HeadingHistory.PrunesEnough | src/utm_pkg/utm_pkg/dual_gnss_map_node.py:468-472 | pruning ends with the second rear fix not older than the bound, or with two |
| HeadingHistory.NewestStay | src/utm_pkg/utm_pkg/dual_gnss_map_node.py:89-90 | of the fixes queued the newest 240 and 120 stay |
| HeadingHistory.QueuesBounded | src/utm_pkg/utm_pkg/dual_gnss_map_node.py:89-90 | over every run the queues hold no more |
| HeadingHistory.JumpRestarts | src/utm_pkg/utm_pkg/dual_gnss_map_node.py:370-393 | over every run a fix more than a second older than the one before on its stream restarts the node: only that fix is left, no heading is remembered, validity is taken back |
| HeadingHistory.JumpsExactly | src/utm_pkg/utm_pkg/dual_gnss_map_node.py:370-393 | and a jump is counted for nothing else |
| HeadingRuns.SamePairing | src/utm_pkg/utm_pkg/dual_gnss_map_node.py:447-472 | one round of the pairing loop pairs alike with and without pruning |
| HeadingRuns.StepKeepsUnpruned | src/utm_pkg/utm_pkg/dual_gnss_map_node.py:348-472 | every callback keeps the node and one that never prunes in step, the bounded queues included |
| HeadingRuns.PruningIsInvisible | src/utm_pkg/utm_pkg/dual_gnss_map_node.py:447-472 | over every run with stamps in order between time jumps, pruning changes nothing that is published or counted |
| PathClient.MppiPathClient.constructor | src/mppi_bringup_pkg/mppi_bringup_pkg/mppi_path_client.py:60-64 | idle, nothing pending, nothing sent |
| PathClient.MppiPathClient.GoalCallback | src/mppi_bringup_pkg/mppi_bringup_pkg/mppi_path_client.py:102-143 | a goal in the right frame starts a new planning request |
| PathClient.MppiPathClient.PlannerGoalResponse | src/mppi_bringup_pkg/mppi_bringup_pkg/mppi_path_client.py:144-164 | a reply to the newest request is followed up or ends planning; a stale one is dropped |
| PathClient.MppiPathClient.PlannerResultCallback | src/mppi_bringup_pkg/mppi_bringup_pkg/mppi_path_client.py:166-191 | a result of the newest request ends planning and, if it has poses, is sent on |
| PathClient.MppiPathClient.PathCallback | src/mppi_bringup_pkg/mppi_bringup_pkg/mppi_path_client.py:193-208 | an empty path or one in another frame is refused |
| PathClient.MppiPathClient.StoreAndSend | src/mppi_bringup_pkg/mppi_bringup_pkg/mppi_path_client.py:210-232 | the path becomes the pending one; it is sent at once unless a goal must be cancelled first |
| PathClient.MppiPathClient.Flush | src/mppi_bringup_pkg/mppi_bringup_pkg/mppi_path_client.py:234-254 | what is pending is sent once, and the slot is empty |
| PathClient.MppiPathClient.CancelDone | src/mppi_bringup_pkg/mppi_bringup_pkg/mppi_path_client.py:226-230 | a cancel reply sends what is pending then |
| PathClient.MppiPathClient.GoalResponse | src/mppi_bringup_pkg/mppi_bringup_pkg/mppi_path_client.py:256-266 | an accepted goal becomes the current one |
| PathClient.MppiPathClient.ResultCallback | src/mppi_bringup_pkg/mppi_bringup_pkg/mppi_path_client.py:272-275 | a finished goal is no longer current |
| PathClient.SendPendingKeeps | src/mppi_bringup_pkg/mppi_bringup_pkg/mppi_path_client.py:234-254 | sending keeps the protocol invariant and empties the slot |
| PathClient.StepKeeps | src/mppi_bringup_pkg/mppi_bringup_pkg/mppi_path_client.py:102-275 | every callback keeps the protocol invariant |
| PathClient.RunKeepsInvariant | src/mppi_bringup_pkg/mppi_bringup_pkg/mppi_path_client.py:102-275 | the protocol invariant holds under every interleaving of callbacks |
| PathClient.SentInOrder | src/mppi_bringup_pkg/mppi_bringup_pkg/mppi_path_client.py:210-254 | goals sent are a subsequence of the paths accepted, in order, none twice; a pending path implies an outstanding cancel reply; is_planning holds exactly while the newest request is unresolved |
| PathClient.DeliveredSendsNewest | src/mppi_bringup_pkg/mppi_bringup_pkg/mppi_path_client.py:226-254 | delivering outstanding cancel replies sends exactly the pending path, and the newest accepted path is then the newest sent |
| PathClient.StaleIsIgnored | src/mppi_bringup_pkg/mppi_bringup_pkg/mppi_path_client.py:144-167 | a stale planner reply or result changes nothing |
| PathClient.PlannedPathIsNewest | src/mppi_bringup_pkg/mppi_bringup_pkg/mppi_path_client.py:166-191 | a planner result leads to a path only as the answer to the newest request, once |
| PathGoals.RunningIsHeld | src/mppi_bringup_pkg/mppi_bringup_pkg/mppi_path_client.py:226-275 | over every run the goal held is the one last accepted, unless some goal finished or was refused or a cancel reply came since |
| PathGoals.StampPrepares | src/mppi_bringup_pkg/mppi_bringup_pkg/mppi_path_client.py:193-217 | a path is sent stamped throughout, with its frame where it names none, and otherwise unchanged |
| PathGoals.PathTaken | src/mppi_bringup_pkg/mppi_bringup_pkg/mppi_path_client.py:166-232 | over every run a path brought in is published; while a goal is running a cancel is asked for and the path waits in place of any other, unsent; otherwise it is sent at once |
| PathGoals.NothingTaken | src/mppi_bringup_pkg/mppi_bringup_pkg/mppi_path_client.py:102-275 | any other event publishes no path and sends none, but for a cancel reply, which sends the pending one |
| PathGoals.SentOnlyWhenFree | src/mppi_bringup_pkg/mppi_bringup_pkg/mppi_path_client.py:224-232 | while a goal is running only a cancel reply sends another |
| PathGoals.PlannedExactly | src/mppi_bringup_pkg/mppi_bringup_pkg/mppi_path_client.py:102-142 | a planning request is made exactly for a goal in the right frame, or in none, with the planner there |
| PathGoals.PlanningEndsExactly | src/mppi_bringup_pkg/mppi_bringup_pkg/mppi_path_client.py:144-170 | planning ends exactly with a refusal, a failure or a result of the newest request |
| ArrayParser.ParseVVF | src/navigation2/nav2_costmap_2d/src/array_parser.cpp:44-103 | terminates on every input with depth in 0 to 2 at each loop head; result and error text as specified |
| ArrayParser.SuccessExactly | src/navigation2/nav2_costmap_2d/src/array_parser.cpp:44-103 | the error is empty exactly when brackets are balanced within two levels and every other character is a separator or part of a numeral at depth 2 that converts |
| ArrayParser.FailedNumberEnds | src/navigation2/nav2_costmap_2d/src/array_parser.cpp:84-99 | a number that cannot be read ends the parse with the message about an unterminated string, whatever follows |
| ArrayParser.BalancedButUnterminated | src/navigation2/nav2_costmap_2d/src/array_parser.cpp:84-99 | the input [[x]] is an example |
| ArrayParser.NumeralEnds | src/navigation2/nav2_costmap_2d/src/array_parser.cpp:84-91 | a numeral before a delimiter is read exactly |
| NumeralGrammar.WrittenIsNumeral | src/navigation2/nav2_costmap_2d/src/array_parser.cpp:84-91 | a sign, digits, a fraction and an exponent, as far as present, are taken as one numeral |
| NumeralGrammar.NumeralIsWritten | src/navigation2/nav2_costmap_2d/src/array_parser.cpp:84-91 | and nothing else is |
| NumeralGrammar.LongestTaken | src/navigation2/nav2_costmap_2d/src/array_parser.cpp:84-91 | from a longer text the longest such front is taken |
| NumeralGrammar.NumberRead | src/navigation2/nav2_costmap_2d/src/array_parser.cpp:84-91 | reading skips white space, line ends included, and takes the numeral up to the delimiter |
| ArrayParser.SeparatorsSkipped | src/navigation2/nav2_costmap_2d/src/array_parser.cpp:79-83 | commas, spaces and tabs are skipped |
| ArrayParser.LayoutIrrelevant | src/navigation2/nav2_costmap_2d/src/array_parser.cpp:44-103 | the result, errors included, depends on the tokens only, not on the separators between them |
| ArrayParser.ReadsBack | src/navigation2/nav2_costmap_2d/src/array_parser.cpp:41-103 | a list of lists of numbers written with any separators is given back with an empty error |
| ArrayParser.ParsePrint | src/navigation2/nav2_costmap_2d/src/array_parser.cpp:41-103 | parsing undoes printing |
| BagFilter.Filter | src/utm_pkg/utm_pkg/bag_to_enu_csv.py:181-254 | the loop over the bag, message by message, ending early only when the equator is crossed |
| BagFilter.KeptExactly | src/utm_pkg/utm_pkg/bag_to_enu_csv.py:220-254 | a usable fix is kept exactly when it is the first, or later, far enough and, without a pause, slow enough |
| BagFilter.PassesExactly | src/utm_pkg/utm_pkg/bag_to_enu_csv.py:189-204 | the checks of one fix: coordinates in range, status, accuracy |
| BagFilter.UnusableCounted | src/utm_pkg/utm_pkg/bag_to_enu_csv.py:189-204 | a fix that fails them is counted under the first it fails and changes nothing else |
| BagFilter.DroppedFor | src/utm_pkg/utm_pkg/bag_to_enu_csv.py:221-239 | a usable fix is dropped as not later, as too fast without a pause, or as too close, and counted so |
| BagFilter.OneGrid | src/utm_pkg/utm_pkg/bag_to_enu_csv.py:205-219 | the first usable fix chooses zone and hemisphere, all later ones are projected into that zone, and the bag is given up exactly when one of them lies across the equator |
| BagFilter.RunIsGood | src/utm_pkg/utm_pkg/bag_to_enu_csv.py:189-254 | every message is counted exactly once; each kept sample is later and far enough from the one before, and within gap and speed when in its segment |
| BagFilter.KeptInOrder | src/utm_pkg/utm_pkg/bag_to_enu_csv.py:189-254 | each kept sample comes from a message of its own that passed the quality checks, in the order of the bag |
| BagFilter.ChainOrders | src/utm_pkg/utm_pkg/bag_to_enu_csv.py:221-232 | kept stamps strictly increase and segment numbers never fall |
| BagFilter.MeasureTrack | src/utm_pkg/utm_pkg/bag_to_enu_csv.py:303-309 | the track length sums the same-segment legs |
| BagFilter.TrackBounded | src/utm_pkg/utm_pkg/bag_to_enu_csv.py:303-309 | the track is at least min_distance per pair counted and at most max_speed times the time elapsed |
| BagFilter.ReportedSegments | src/utm_pkg/utm_pkg/bag_to_enu_csv.py:337 | the reported count is the last number plus one |
| BagFilter.ReportedVersusStretches | src/utm_pkg/utm_pkg/bag_to_enu_csv.py:229-230 | the reported count is never below the real number of segments, and equal to it exactly when no number was skipped |
| BagFilter.SkippedByPauses | src/utm_pkg/utm_pkg/bag_to_enu_csv.py:221-236 | the current number runs ahead of the last kept sample by the dropped fixes after a pause; none is skipped exactly when at most one pause lies between kept samples |
| BagFilter.SegmentsCountedExactly | src/utm_pkg/utm_pkg/bag_to_enu_csv.py:221-337 | the reported count is right exactly when from each kept sample to the next at most one usable fix comes after a pause |
| BagFilter.SegmentsOvercounted | src/utm_pkg/utm_pkg/bag_to_enu_csv.py:229-236 | a number is skipped, whatever the projection: of three usable fixes after pauses the second is too close and dropped, the third kept, and two segments are reported as three |
| BagFilter.YawWindow | src/utm_pkg/utm_pkg/bag_to_enu_csv.py:125-145 | both ends of the window: the nearest far enough sample of the segment, or the end of the segment |
| BagFilter.WindowUnique | src/utm_pkg/utm_pkg/bag_to_enu_csv.py:125-145 | the window is determined by that |
| BagFilter.WindowInside | src/utm_pkg/utm_pkg/bag_to_enu_csv.py:128-145 | every window stays inside the segment of its sample |
| BagFilter.PathYaws | src/utm_pkg/utm_pkg/bag_to_enu_csv.py:119-151 | one yaw per sample, along its window, or the one before when the chord has no length |
| BagFilter.StraightYaw | src/utm_pkg/utm_pkg/bag_to_enu_csv.py:146-151 | on a straight track every yaw is its direction: the arc tangent of its northward over its eastward part |
| BagFilter.StandingYaw | src/utm_pkg/utm_pkg/bag_to_enu_csv.py:146-151 | without any distance the yaw stays as it was, 0 at the start |
| SerialBridge.LinesJoin | src/bridge_pkg/bridge_pkg/serial_bridge.py:164-165 | cutting a stream at newlines loses nothing |
| SerialBridge.LinesUnique | src/bridge_pkg/bridge_pkg/serial_bridge.py:164-165 | and there is only one such cut |
| SerialBridge.CompleteAppend | src/bridge_pkg/bridge_pkg/serial_bridge.py:163-165 | reading on from the buffered rest is reading on from the whole stream |
| SerialBridge.SerialBridgeNode.constructor | src/bridge_pkg/bridge_pkg/serial_bridge.py:92-93 | empty buffer, nothing remembered |
| SerialBridge.SerialBridgeNode.Receive | src/bridge_pkg/bridge_pkg/serial_bridge.py:160-172 | one read: complete lines go to the handler in order, the rest stays in the buffer |
| SerialBridge.SerialBridgeNode.HandleLine | src/bridge_pkg/bridge_pkg/serial_bridge.py:174-179 | encoder lines are processed, others only logged |
| SerialBridge.SerialBridgeNode.ProcessEncoder | src/bridge_pkg/bridge_pkg/serial_bridge.py:181-219 | what is published and remembered for one reading, and when an exception escapes |
| SerialRuns.DrainMoves | src/bridge_pkg/bridge_pkg/serial_bridge.py:164-168 | draining moves lines from buffer to handler, none lost, doubled or reordered |
| SerialRuns.FeedsFrame | src/bridge_pkg/bridge_pkg/serial_bridge.py:151-172 | for any chunking, lines handled plus complete lines still buffered are the lines of the stream, cleaned, without blanks; the buffer ends in its tail |
| SerialRuns.CatchesUp | src/bridge_pkg/bridge_pkg/serial_bridge.py:160-172 | whatever the stream, a non-empty read on which no exception escapes leaves no complete line behind |
| SerialRuns.DrainReaches | src/bridge_pkg/bridge_pkg/serial_bridge.py:164-172 | draining gets to the end of the buffer, or to just behind the first line that raises; what is handled, remembered and left is that of the lines up to there |
| SerialRuns.DrainFinishes | src/bridge_pkg/bridge_pkg/serial_bridge.py:164-172 | draining gets through the buffer exactly when no exception escapes on any of its lines but the last |
| SerialRuns.ReadFinishes | src/bridge_pkg/bridge_pkg/serial_bridge.py:160-172 | a read finishes the longer stream exactly when it meets no exception before its last line |
| SerialRuns.AllHandled | src/bridge_pkg/bridge_pkg/serial_bridge.py:151-172 | however a stream without an exception before its last line is cut, exactly its lines are handled and the buffer is its tail |
| SerialRuns.BytewiseFinishes | src/bridge_pkg/bridge_pkg/serial_bridge.py:151-172 | read byte by byte every stream is finished, exceptions or not |
| SerialRuns.RaisesByItself | src/bridge_pkg/bridge_pkg/serial_bridge.py:192-213 | with a poll period other than zero, a line raises exactly when one of its counts reads as infinite |
| SerialReads.ReadReaches | src/bridge_pkg/bridge_pkg/serial_bridge.py:160-172 | a read moves on to the end of what it has, or to just behind the next line that raises |
| SerialReads.LeftAfterRaised | src/bridge_pkg/bridge_pkg/serial_bridge.py:151-172 | however a stream is cut into reads of at most limit bytes, a line is left over only after q lines raised that end in the last q * limit bytes, for some q |
| SerialReads.LateReadsLag | src/bridge_pkg/bridge_pkg/serial_bridge.py:151-172 | read as late and in reads as wide as allowed, q reads get past fewer than q raising lines, the last line handled not counted |
| SerialReads.FinishedExactly | src/bridge_pkg/bridge_pkg/serial_bridge.py:151-172 | with reads of at most limit bytes (256 in the source) every way of cutting a stream handles exactly its lines and leaves its tail, if and only if for no q do q lines other than the last raise that end in the last q * limit bytes |
| SerialReads.ChunkingIrrelevant | src/bridge_pkg/bridge_pkg/serial_bridge.py:151-172 | all such ways of cutting one stream end in the same state under exactly that condition |
| SerialReads.WideReads | src/bridge_pkg/bridge_pkg/serial_bridge.py:151-172 | where one read can take the whole stream, the condition is that no exception escapes before its last line |
| SerialRuns.RaisingLeavesRest | src/bridge_pkg/bridge_pkg/serial_bridge.py:164-172 | a line on which an exception escapes, read together with another, leaves that one waiting |
| SerialRuns.InfiniteCountStalls | src/bridge_pkg/bridge_pkg/serial_bridge.py:164-206 | a count that reads as infinite is such a line |
| SerialBridge.SplitJoined | src/bridge_pkg/bridge_pkg/serial_bridge.py:182 | splitting at commas undoes joining with them |
| SerialBridge.FormatsRead | src/bridge_pkg/bridge_pkg/serial_bridge.py:184-201 | both line formats are read field by field as they are written |
| SerialDistances.ReadingExactly | src/bridge_pkg/bridge_pkg/serial_bridge.py:181-206 | a line is a reading exactly when its fields are those of one of the two formats and its numbers can be read; whole numbers are cut towards zero |
| SerialDistances.EncoderLinesMarked | src/bridge_pkg/bridge_pkg/serial_bridge.py:174-179 | lines of both formats are recognised |
| SerialDistances.UnmarkedIsOther | src/bridge_pkg/bridge_pkg/serial_bridge.py:174-179 | the mark inside a line is found only where it is |
| SerialDistances.DroppedBytes | src/bridge_pkg/bridge_pkg/serial_bridge.py:166 | carriage returns and bytes outside ASCII leave no trace |
| SerialDistances.Stripped | src/bridge_pkg/bridge_pkg/serial_bridge.py:166-167 | white space around a line goes, and nothing else |
| SerialDistances.SpeedBetweenLines | src/bridge_pkg/bridge_pkg/serial_bridge.py:192-219 | of two total-count lines in a row, after any lines, the second is published with its distance, the count between them, the time between them in seconds or else the poll period, and the speed these give |
| SerialDistances.StepTimes | src/bridge_pkg/bridge_pkg/serial_bridge.py:208-213 | a first total-count line is published at rest; a line with a time step of its own uses that when positive |
| SerialDistances.MalformedIgnored | src/bridge_pkg/bridge_pkg/serial_bridge.py:202-206 | a malformed line, or one on which an exception escapes, leaves the encoder state unchanged |
| SerialDistances.DistancesTelescope | src/bridge_pkg/bridge_pkg/serial_bridge.py:192-219 | for lines with total counts, malformed lines in between or not, speed times time step adds up to last distance minus first when all times are finite, and in general but for the steps of infinite time |
| SerialDistances.InfiniteTimeMisses | src/bridge_pkg/bridge_pkg/serial_bridge.py:208-213 | which lines have a step of infinite time, and that the distance covered in it is missing from the sum |

## Left out

- InflationCoverage.ManhattanCovered: does not say that a recorded source is the nearest obstacle, because sources spread through four neighbours only approximate it; the Euclidean and Manhattan bounds and the single-obstacle case are exact.
- InflationCosts.SourceCostModelled: of the exponential it uses that it is 1 at 0, not negative and increasing, and of the square root that it is one; their floating-point values are not modelled.
- InflationLayers.FillDistances: distances are kept squared, because only their order and their cost matter.
- RowMajor.CopyMapRegion: a region without cells is a no-op even where the program would pass a negative start address to a copy of no bytes.
- Costmap.Costmap2D.ResetMapToValue: windows with ends in the wrong order or off the map, on which the program writes outside its array, are excluded.
- Costmap.Costmap2D.UpdateOrigin: locks and the allocation failure path are not modelled.
- Bresenham.RaytraceLimited: the distance of the two cells is a parameter, the program's hypot.
- ConvexFill.ConvexFillCells: called with an empty list, as its only caller does.
- ConvexPolygons.ConvexTest: points on the line through an edge are excluded; which of them count depends on the half-open comparison.
- CollisionTime.TransformPoints: cosine and sine are any pair on the unit circle; nothing else of them is used.
- MonitorNode.CollisionMonitorNode.Process: sources of points, polygon updates from topics, the outline a circle publishes, logging and visualisation are not modelled.
- Mkgmtime.MakeGmtime: gmtime never fails and years do not overflow, so the branch for a null result is not reached; time_t is signed, since for an unsigned one the start value would be a shift by the full width, which C leaves undefined.
- HeadingNode.DualGnssMapNode.ProcessPending: one clock reading per event stands for the readings a callback makes; trails, markers, diagnostics and the rejection text are not modelled.
- RearPairing.InterpolatedRear: arithmetic is exact, so an interpolated stamp equals the front stamp.
- HeadingNode.DualGnssMapNode.JudgePair: hypot, atan2 and the circular average are arbitrary functions, so the variance of the yaw, and with it the two position variances of a fix, is not modelled; a horizontal deviation may be infinite.
- PathClient.RunKeepsInvariant: does not bound the FollowPath goals under way by one, because a second path before the first acceptance is sent directly, and a late result of an older goal clears the current one.
- PathClient.MppiPathClient.GoalResponse: a future that raises instead of giving a goal handle is not modelled; reading the CSV file is not either, only the path it yields.
- ArrayParser.ParseVVF: the conversion of a numeral to a float is a parameter, and what counts as a numeral is the decimal form the GNU library reads in the C locale.
- BagFilter.Filter: the UTM projection, the covariance rule and the reading of the bag are parameters or inputs; the medians of the origin and the output files are not modelled.
- SerialBridge.SerialBridgeNode.Receive: reconnecting, the silent start-up phase, sending and the threads are not modelled; bytes are those actually read.
- Floating-point rounding and overflow, and wrap-around of unsigned and 32-bit integers, except in the shifts of mkgmtime: numbers are real or unbounded.
- The denoise, obstacle-combination and static layers, footprint publishing, dynamic parameters, lifecycle, launch and set-up files: plumbing or easy.
- The rest of Nav2 (planners, controllers, AMCL, behaviour trees) and the u-blox driver apart from mkgmtime: outside the algorithms chosen here.
- Goal and progress checkers, watchdogs and unit conversions: what they promise can be read off one function.
- worldToMapEnforceBounds at the exact upper edge, where its comparison lets the cast decide.

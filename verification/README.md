# Verified model of Nav2 on Andino

This project models, in Dafny, the parts of a vendored Nav2 and of the Andino
robot's firmware that decide what the robot believes and how it moves, and
proves what they promise.

* **Costmap inflation** (`RankTable`, `Brushfire`, `BrushfireRun`, `CostModel`,
  `Inflation`, `InflationLayer`): the bucketed brushfire of the inflation layer, imperative
  over the master array, the `seen` flags and the growing bins. For any number
  of obstacles it is proved sound, to terminate, to be idempotent, and never to
  queue a cell behind the bin being read. For one obstacle it is proved equal to
  the brute-force answer. With several obstacles it is not exact; a concrete map
  shows it, the maps without ties on which it is exact are characterised, and
  with ties the cost is the least distance's wherever a safe way leads there.
* **Costmap kernel** (`GridIndex`, `Costmap2D`, `WorldCoordinates`, `VoxelLayer`,
  `Bresenham`, `PolygonFill`, `PolygonCost`, `LayerMerge`, `ObstacleClip`): the
  rolling window, coordinate conversion, line tracing, polygon fill with its own
  sort, layer merging, and ray clipping.
* **Collision monitor** (`PointInPolygon`, `Kinematics`, `Polygon`,
  `SafetyFilter`, `CollisionMonitor`): point in polygon, forward simulation, the
  fold of all polygons into one velocity, and the publisher that falls silent.
* **Spin** (`Spin`): yaw unwrapping, the success test and the look-ahead.
* **Firmware and host protocol** (`Decimal`, `Shell`, `HostProtocol`, `Pid`,
  `Encoder`, `Motor`, `Firmware`, `App`, `Turns`): the byte-stream shell, the
  text protocol in both directions, the controllers, and the control loop with
  its auto-stop as a state machine that the class `App` implements, over any
  number of turns. Numbers are parsed into the 16-bit `int` of the boards
  (andino_firmware/platformio.ini:12).

Code that changes state in place is modelled by classes and methods over arrays
and fields, each proved against functions and predicates on values; the
properties of those are lemmas. What such a function computes is pinned apart
from its own text, in plain arithmetic or coordinates, by the lemmas named
`InPlainTerms` and those beside them.

Some outside values are parameters. `hypot`, `exp`, `sin`, `cos`, `sqrt` and pi
are real functions or numbers of which only what the proofs name is used
(`CostModel.Model.Sound`, `Kinematics.Trig.OnUnitCircle`,
`SafetyFilter.IsHypot`). Clock readings, sensor points, observed poses and the
answers of the collision checker are arguments.

What the code does where its documentation or a reader might expect otherwise:

* An inflated cell can carry a distance that is not the least one
  (`Brushfire.ThreeObstaclesInexact`); without ties it never does exactly when
  `Brushfire.Connected` holds of the map (`Brushfire.ExactIffConnected`).
* `worldToMapEnforceBounds` leaves the map exactly at the upper edge
  (`WorldCoordinates.Axis.EnforcedExceptAtEnd`).
* A container layer keeps its costs between cycles, so it is transparent only
  where the old ones add nothing (`LayerMerge.NestedContainerIsTransparent`).
* On a map narrower than 1 mm a clipped ray can end outside the map
  (`ObstacleClip.NarrowMapEscapes`).
* The spin look-ahead is cut off by the yaw already turned, so it is complete
  only when the way ahead is shorter (`SpinBehavior.WayExaminedIff`); the first
  cycle examines nothing (`SpinBehavior.FirstCycleIgnoresCollisions`).
* The auto-stop is documented to act when no command has come for the window,
  but an open-loop command does not restart its timer
  (`Firmware.AutoStopAsDocumentedIff`), so that a drive can be cut off 102 ms
  after it began (`FirmwareTurns.CutOffAtOnce`).
* The host sends 32-bit speeds and the boards read 16 bits of them: a speed
  arrives if and only if it is in -0x8000..0x7FFF (`FirmwareApp.HostSpeedsArrive`),
  and 65536 stops the robot (`FirmwareApp.WideSpeedStops`).
* In the same way an output gain of 65536 is read as zero, by which an enabled
  controller then divides (`FirmwareApp.GainsArrive`).
* A blank message, such as the host's empty one, makes the shell compare a null
  name (`FirmwareApp.NullNameExactlyWhenBlank`).
* A message of 64 or more characters loses whole blocks of 64 from its front
  (`CommandShell.FramingIsSplitting`).
* Four gains whose text has 20 or more characters do not fit the buffer they are
  copied to (`FirmwareApp.UsableGainsIff`).

## Model

| member | source | states |
|---|---|---|
| `RankTable.RankOrder` | navigation2/nav2_costmap_2d/plugins/inflation_layer.cpp:391-429 | levels order offsets exactly as their squared lengths do, equality included |
| `RankTable.RankStep` | navigation2/nav2_costmap_2d/plugins/inflation_layer.cpp:415-425 | from one squared length to the next one that occurs the level grows by exactly one, whatever the radius |
| `RankTable.DiscPoints` | navigation2/nav2_costmap_2d/plugins/inflation_layer.cpp:399-405 | the collected offsets are exactly those within the radius |
| `RankTable.GenerateIntegerDistances` | navigation2/nav2_costmap_2d/plugins/inflation_layer.cpp:391-429 | every offset of the disc gets the rank of its squared length, the rest 0, and the returned level is the highest rank |
| `Brushfire.StartInv` | navigation2/nav2_costmap_2d/plugins/inflation_layer.cpp:245-256 | the queue as seeded with the obstacles establishes the run invariant |
| `Brushfire.NearerSeen` | navigation2/nav2_costmap_2d/plugins/inflation_layer.cpp:261-314 | in every reachable state, when a cell is popped for an obstacle, its neighbours nearer to that obstacle are already visited, and no farther from an obstacle than from that one |
| `Brushfire.NeverBehind` | navigation2/nav2_costmap_2d/plugins/inflation_layer.cpp:203-208 | with any number of obstacles no unvisited neighbour ever belongs in the bin being read or in a drained one: the inflation list is empty again at the end |
| `Brushfire.ClaimKeepsInv` | navigation2/nav2_costmap_2d/plugins/inflation_layer.cpp:279-313 | visiting a cell and queueing its neighbours keeps the run invariant and leaves the bin being read as it was |
| `Brushfire.SkipKeepsInv` | navigation2/nav2_costmap_2d/plugins/inflation_layer.cpp:274-277 | dropping an already visited cell keeps the run invariant |
| `Brushfire.NextBinKeepsInv` | navigation2/nav2_costmap_2d/plugins/inflation_layer.cpp:315-317 | freeing a drained bin keeps the run invariant |
| `Brushfire.DrainedIsSettled` | navigation2/nav2_costmap_2d/plugins/inflation_layer.cpp:261-318 | at the end each visited cell has a real obstacle within the radius, each obstacle has itself, and no neighbour would be better served; all bins are empty |
| `Brushfire.OneSourceExact` | navigation2/nav2_costmap_2d/plugins/inflation_layer.cpp:261-318 | one obstacle: visited are exactly the cells within the radius, all for that obstacle |
| `Brushfire.ExactOnOwnPath` | navigation2/nav2_costmap_2d/plugins/inflation_layer.cpp:261-318 | many obstacles, ties or not: a cell gets its nearest obstacle if steps towards it stay where it is the only nearest one |
| `Brushfire.ExactOnSafeWay` | navigation2/nav2_costmap_2d/plugins/inflation_layer.cpp:261-318 | many obstacles, ties included: a cell gets an obstacle at its least distance, whichever of the tied ones, if steps towards a nearest one lead through cells whose nearest obstacles are all nearest to the cell before |
| `Brushfire.OwnPathIsSafe` | navigation2/nav2_costmap_2d/plugins/inflation_layer.cpp:261-318 | a path along the region of a single nearest obstacle is such a way |
| `Brushfire.NearestKeptIff` | navigation2/nav2_costmap_2d/plugins/inflation_layer.cpp:261-318 | one step of that: a cell ends with its only nearest obstacle if and only if it is that obstacle or a neighbour one step nearer ends with it |
| `Brushfire.ExactIffConnected` | navigation2/nav2_costmap_2d/plugins/inflation_layer.cpp:261-318 | many obstacles without ties: every cell ends with its nearest obstacle if and only if each obstacle's own region, within the radius, is connected to it by nearer and nearer cells, which is a condition on the map |
| `Brushfire.ThreeObstaclesInexact` | navigation2/nav2_costmap_2d/plugins/inflation_layer.cpp:261-318 | the distance is not exact in general: for obstacles at (1,1), (0,3), (3,0) every run gives (3,3) the squared distance 9, not 8 |
| `Brushfire.ThreeObstaclesDisconnected` | navigation2/nav2_costmap_2d/plugins/inflation_layer.cpp:261-318 | on that map the region of (1,1) is not connected to it |
| `BrushfireRun.OutcomeUnique` | navigation2/nav2_costmap_2d/plugins/inflation_layer.cpp:261-318 | the order in which the obstacles are queued decides the labels and bins a run ends with |
| `CostModel.Model.CostFalls` | navigation2/nav2_costmap_2d/include/nav2_costmap_2d/inflation_layer.hpp:149-163 | the cost never rises with distance, is lethal at zero and at most inscribed beyond |
| `CostModel.Model.CostInPlainTerms` | navigation2/nav2_costmap_2d/include/nav2_costmap_2d/inflation_layer.hpp:149-163 | lethal at zero, inscribed within the inscribed radius, and beyond it 252 times the exponential of minus the scaling factor times the distance from that radius, rounded down |
| `CostModel.Model.NearerCostsMore` | navigation2/nav2_costmap_2d/include/nav2_costmap_2d/inflation_layer.hpp:149-163 | of two obstacles the nearer one is due at least the cost of the farther |
| `CostModel.Model.RadiusTest` | navigation2/nav2_costmap_2d/plugins/inflation_layer.cpp:342-345 | comparing the cached length with the radius is comparing squared integers |
| `Inflation.Setting.WindowSeesAll` | navigation2/nav2_costmap_2d/plugins/inflation_layer.cpp:226-238 | no obstacle within the radius of a cell of the window lies outside the widened window |
| `Inflation.Setting.SourcesInPlainTerms` | navigation2/nav2_costmap_2d/plugins/inflation_layer.cpp:245-256 | inflation starts from exactly the lethal cells of the widened window, and its unknown ones when inflating around unknown |
| `Inflation.Setting.UnknownCells` | navigation2/nav2_costmap_2d/plugins/inflation_layer.cpp:292-298 | an unknown cell stays unknown or gets the cost due: without inflating unknown if and only if that is 253 or more, with it if and only if it is not free; so without it no unknown cell ends below 253 |
| `Inflation.Setting.KnownCells` | navigation2/nav2_costmap_2d/plugins/inflation_layer.cpp:292-298 | a known cell gets the greater of its cost and the cost due, if it is labelled in the window, and keeps its own otherwise |
| `Inflation.Setting.OneObstacleExact` | navigation2/nav2_costmap_2d/plugins/inflation_layer.cpp:281-299 | one obstacle: every map cell holds exactly the brute-force answer for its own distance, stated apart from the code's own write rule; cells out of reach or out of the window unchanged |
| `Inflation.Setting.ManyObstaclesExact` | navigation2/nav2_costmap_2d/plugins/inflation_layer.cpp:281-299 | many obstacles: the written cost is the one due to the nearest obstacle wherever it is reached along its own region |
| `Inflation.Setting.ManyObstaclesNearest` | navigation2/nav2_costmap_2d/plugins/inflation_layer.cpp:281-299 | many obstacles, ties included: the written cost is the one due at the least distance wherever a nearest obstacle is reached by a safe way |
| `Inflation.Setting.ManyObstaclesExactIff` | navigation2/nav2_costmap_2d/plugins/inflation_layer.cpp:281-299 | many obstacles without ties: the costs are the brute-force ones if the regions are connected, and only then where the window is the map, the rest of it is free and each distance has its own cost |
| `Inflation.Setting.InflationSound` | navigation2/nav2_costmap_2d/plugins/inflation_layer.cpp:281-299 | a changed cell lies in the window and got the cost of a real obstacle within the radius, never more than any nearer obstacle is due; known costs never drop |
| `Inflation.Setting.LethalOnlyAtSource` | navigation2/nav2_costmap_2d/include/nav2_costmap_2d/inflation_layer.hpp:149-163 | an obstacle gives the lethal cost to its own cell and to no other |
| `Inflation.Setting.ObstaclesPreserved` | navigation2/nav2_costmap_2d/plugins/inflation_layer.cpp:252-299 | inflation neither makes nor loses an obstacle, with or without inflating around unknown |
| `Inflation.Setting.SourcesPreserved` | navigation2/nav2_costmap_2d/plugins/inflation_layer.cpp:248-256 | the next inflation starts from the same obstacles |
| `Inflation.Setting.OneObstacleIdempotent` | navigation2/nav2_costmap_2d/plugins/inflation_layer.cpp:281-299 | one obstacle: inflating a second time changes nothing |
| `Inflation.Setting.SameObstaclesSameLabels` | navigation2/nav2_costmap_2d/plugins/inflation_layer.cpp:245-318 | two inflations of maps with the same obstacles label the same cells for the same obstacles |
| `Inflation.Setting.InflationIdempotent` | navigation2/nav2_costmap_2d/plugins/inflation_layer.cpp:245-318 | any number of obstacles: inflating a second time changes nothing |
| `InflationPlugin.InflationLayer.ComputeCaches` | navigation2/nav2_costmap_2d/plugins/inflation_layer.cpp:357-389 | afterwards both caches and the level table hold the lengths, costs and ranks of all offsets in range, and there is an empty bin for each level |
| `InflationPlugin.InflationLayer.DistanceLookup` | navigation2/nav2_costmap_2d/include/nav2_costmap_2d/inflation_layer.hpp:219-227 | the cached entry is the length between the two cells |
| `InflationPlugin.InflationLayer.CostLookup` | navigation2/nav2_costmap_2d/include/nav2_costmap_2d/inflation_layer.hpp:236-244 | the cached entry is the cost due at the distance of the two cells |
| `InflationPlugin.InflationLayer.Enqueue` | navigation2/nav2_costmap_2d/plugins/inflation_layer.cpp:333-354 | an unvisited cell within the radius is appended to the bin of its rank, anything else leaves the bins alone; every index is in range |
| `InflationPlugin.InflationLayer.OfferNeighbours` | navigation2/nav2_costmap_2d/plugins/inflation_layer.cpp:302-313 | exactly the unvisited neighbours within the radius and on the map are queued, left, below, right and above in this order |
| `InflationPlugin.InflationLayer.CollectSources` | navigation2/nav2_costmap_2d/plugins/inflation_layer.cpp:245-256 | the first bin holds exactly the obstacles of the widened window, row by row |
| `InflationPlugin.InflationLayer.VisitCell` | navigation2/nav2_costmap_2d/plugins/inflation_layer.cpp:267-313 | one entry of a bin: the run invariant and the costs written so far are kept, and the bin being read does not grow |
| `InflationPlugin.InflationLayer.DrainBin` | navigation2/nav2_costmap_2d/plugins/inflation_layer.cpp:262-314 | one bin is read to its end; it terminates although bins grow |
| `InflationPlugin.InflationLayer.UpdateCosts` | navigation2/nav2_costmap_2d/plugins/inflation_layer.cpp:194-321 | the new master costmap is the old one with the labelled cells of the window written, for a settled labelling that is that of the run over the obstacles; `Inflation.Setting.UnknownCells` and `KnownCells` say what is written; nothing changes when disabled or without a radius |
| `Costmap.CopyMapRegion` | navigation2/nav2_costmap_2d/include/nav2_costmap_2d/costmap_2d.hpp:391-409 | exactly the cells of the region are copied, every other cell keeps its value; empty and off-map regions with no cells included |
| `Costmap.CutAndPaste` | navigation2/nav2_costmap_2d/src/costmap_2d.cpp:357-394 | cutting the overlap out, clearing and pasting it back is the shift by the origin difference, for negative and non-overlapping shifts too |
| `Costmap.Costmap2D.UpdateOrigin` | navigation2/nav2_costmap_2d/src/costmap_2d.cpp:343-397 | cell (x,y) holds the old cell (x+cx,y+cy) if that is on the map and the default otherwise; the origin moves by whole cells |
| `Costmap.SameWorldCoordinate` | navigation2/nav2_costmap_2d/src/costmap_2d.cpp:279-283 | a kept cell keeps its world coordinate |
| `Costmap.SamePlaceSameCost` | navigation2/nav2_costmap_2d/src/costmap_2d.cpp:343-397 | after a shift a cell holds what the cell with the same world coordinates held, and the default if there was none in view |
| `Costmap.OriginWithinOneCell` | navigation2/nav2_costmap_2d/src/costmap_2d.cpp:346-354 | the new origin is less than one cell from the requested one, and never beyond it |
| `Costmap.RunKeepsWorld` | navigation2/nav2_costmap_2d/src/costmap_2d.cpp:343-397 | over any run of shifts a cell holds what its place in the world held at the start if that stayed in view all along, and the default otherwise |
| `VoxelMap.VoxelLayer.ResetMaps` | navigation2/nav2_costmap_2d/plugins/voxel_layer.cpp:143-151 | costs go to the default and voxel columns to unknown |
| `VoxelMap.VoxelLayer.UpdateOrigin` | navigation2/nav2_costmap_2d/plugins/voxel_layer.cpp:440-505 | the costs and the voxel columns are shifted by one and the same offset |
| `WorldCoordinates.Axis.LegalExactlyInside` | navigation2/nav2_costmap_2d/src/costmap_2d.cpp:285-298 | worldToMap accepts exactly the half-open box of the map |
| `WorldCoordinates.Axis.CentreRoundTrip` | navigation2/nav2_costmap_2d/src/costmap_2d.cpp:279-298 | mapToWorld followed by worldToMap gives the cell back |
| `WorldCoordinates.Axis.CentreIsNear` | navigation2/nav2_costmap_2d/src/costmap_2d.cpp:279-298 | the centre of a point's cell is at most half a cell away |
| `WorldCoordinates.Axis.EnforcedExceptAtEnd` | navigation2/nav2_costmap_2d/src/costmap_2d.cpp:321-341 | worldToMapEnforceBounds gives a valid index if and only if the point is not exactly on the upper edge |
| `WorldCoordinates.UpperEdgeEscapes` | navigation2/nav2_costmap_2d/src/costmap_2d.cpp:328-331 | on ten one-metre cells from 0 the point 10 gets index 10 |
| `Bresenham.Bresenham2D` | navigation2/nav2_costmap_2d/include/nav2_costmap_2d/costmap_2d.hpp:499-517 | the visited cells are the major-axis steps, at most the given number, each with the rounded number of minor steps |
| `Bresenham.RaytraceLine` | navigation2/nav2_costmap_2d/include/nav2_costmap_2d/costmap_2d.hpp:439-492 | with the default limits the trace starts and ends at the given cells, moves to a touching cell each step and stays within half a cell of the line |
| `Bresenham.RaytraceRange` | navigation2/nav2_costmap_2d/include/nav2_costmap_2d/costmap_2d.hpp:439-492 | with limits: nothing on a ray shorter than the least length; else such a trace from the cell at the least length, over the share of its steps that the greatest length allows; the whole line if the limits do not bind |
| `Bresenham.StartIsAtLeastLength` | navigation2/nav2_costmap_2d/include/nav2_costmap_2d/costmap_2d.hpp:455-465 | the trace starts less than a cell, along either axis, from the point at the least length on the ray |
| `Bresenham.FullShare` | navigation2/nav2_costmap_2d/include/nav2_costmap_2d/costmap_2d.hpp:477 | the share of the steps is the one whose length is the greatest allowed, and all of them if the line is shorter |
| `Bresenham.TraceTowards` | navigation2/nav2_costmap_2d/include/nav2_costmap_2d/costmap_2d.hpp:471-491 | the given share of the steps of a line, one cell for each step along the longer axis |
| `Bresenham.ColumnVisited` | navigation2/nav2_costmap_2d/include/nav2_costmap_2d/costmap_2d.hpp:439-492 | a trace of touching cells visits every column between its ends |
| `PolygonFill.PolygonOutlineCells` | navigation2/nav2_costmap_2d/src/costmap_2d.cpp:428-443 | the outline is the traces of all edges in order, the closing edge last |
| `PolygonFill.TwoEdgesSpan` | navigation2/nav2_costmap_2d/src/costmap_2d.cpp:428-443 | in a closed polygon any column between two vertices is spanned by two different edges |
| `PolygonFill.TwoPerColumn` | navigation2/nav2_costmap_2d/src/costmap_2d.cpp:428-443 | the outline has at least two cells in every column of its range, for every closed polygon of two or more vertices |
| `PolygonFill.SortByX` | navigation2/nav2_costmap_2d/src/costmap_2d.cpp:457-472 | the step-back swap sort terminates with a permutation sorted by x |
| `PolygonFill.FillColumns` | navigation2/nav2_costmap_2d/src/costmap_2d.cpp:474-511 | for sorted cells with two in each column the result is exactly the union of the column ranges from least to greatest y, although the list grows while it is walked |
| `PolygonFill.ConvexFillCells` | navigation2/nav2_costmap_2d/src/costmap_2d.cpp:445-512 | for every polygon of three or more vertices: exactly the column hull of its outline, all vertices included and all on the map; fewer than three give nothing |
| `PolygonCost.SetConvexPolygonCost` | navigation2/nav2_costmap_2d/src/costmap_2d.cpp:399-426 | the call succeeds if and only if every vertex is on the map, and then sets exactly the filled cells; otherwise nothing changes |
| `LayerMerge.CostmapLayer.UpdateWithMax` | navigation2/nav2_costmap_2d/src/costmap_layer.cpp:110-137 | every cell of the window becomes the join with the layer, unknown ignored, and no cell outside it changes |
| `LayerMerge.CostmapLayer.UpdateWithMaxWithoutUnknownOverwrite` | navigation2/nav2_costmap_2d/src/costmap_layer.cpp:139-166 | every known cell of the window becomes the join with the layer, unknown cells and cells outside it stay |
| `LayerMerge.CostmapLayer.UpdateWithOverwrite` | navigation2/nav2_costmap_2d/src/costmap_layer.cpp:194-213 | every cell of the window takes the layer's value where that is known, and no cell outside it changes |
| `LayerMerge.CostmapLayer.UpdateWithAddition` | navigation2/nav2_costmap_2d/src/costmap_layer.cpp:215-247 | every cell of the window becomes the capped sum with the layer, unknown ignored, and no cell outside it changes |
| `LayerMerge.MaxFoldIsJoin` | navigation2/nav2_costmap_2d/src/costmap_layer.cpp:122-134 | merging by Max gives the greatest known value of all layers, and unknown only if none is known |
| `LayerMerge.NestedMax` | navigation2/nav2_costmap_2d/src/costmap_layer.cpp:122-134 | merging layers into an unknown cell first and that cell into the master is the same as merging them into the master |
| `LayerMerge.AdditionFoldIsSum` | navigation2/nav2_costmap_2d/src/costmap_layer.cpp:226-244 | two or more known layers added into an unknown master give the sum capped at 252; one known layer gives its value, uncapped |
| `LayerMerge.RunIsFold` | navigation2/nav2_costmap_2d/src/costmap_layer.cpp:110-137 | merging whole layers one after another is the fold of each cell's column inside the window and nothing outside it |
| `LayerMerge.MaxOrderFree` | navigation2/nav2_costmap_2d/src/costmap_layer.cpp:110-137 | merging by Max does not depend on the order or repetition of the layers |
| `LayerMerge.AdditionOrderFree` | navigation2/nav2_costmap_2d/src/costmap_layer.cpp:215-247 | merging by Addition into an unknown master does not depend on the order of the layers |
| `LayerMerge.NestedMaxIff` | navigation2/nav2_costmap_2d/src/costmap_layer.cpp:122-134 | going through a cell that held a value gives the direct result if and only if that value is unknown or not above it |
| `LayerMerge.NestedContainerIsTransparent` | navigation2/nav2_costmap_2d/plugins/plugin_container_layer.cpp:107-119 | a container gives a master cell what its plugins give directly if and only if what it held before is unknown or not above that; a container just reset always does |
| `LayerMerge.NestedContainerOutside` | navigation2/nav2_costmap_2d/plugins/plugin_container_layer.cpp:107-119 | outside the window the container changes nothing either way |
| `LayerMerge.OverwriteFoldIsLast` | navigation2/nav2_costmap_2d/src/costmap_layer.cpp:204-210 | overwriting keeps the last known value |
| `LayerMerge.MaxKnownFold` | navigation2/nav2_costmap_2d/src/costmap_layer.cpp:151-163 | keeping unknown cells is merging by Max on the known cells alone |
| `LayerMerge.MixedRunIsFold` | navigation2/nav2_costmap_2d/plugins/plugin_container_layer.cpp:107-111 | merging enabled layers each by its own setting is, in each cell of the window, the fold of their own rules in order, and nothing outside it |
| `LayerMerge.MaximumRun` | navigation2/nav2_costmap_2d/plugins/plugin_container_layer.cpp:107-111 | layers that all merge by Max are a run of Max, to which the results on nested containers apply |
| `LayerMerge.MergeInto` | navigation2/nav2_costmap_2d/plugins/plugin_container_layer.cpp:113-125 | the switch over the setting merges an enabled layer by exactly its rule, and nothing for any other setting |
| `LayerMerge.SettingsInPlainTerms` | navigation2/nav2_costmap_2d/plugins/plugin_container_layer.cpp:113-125 | overwriting takes the known layer value, the maximum the greater known one, the maximum without overwriting unknown leaves an unknown cell unknown, any other setting changes nothing; an unknown layer value changes nothing under any |
| `LayerMerge.ContainerUpdateCosts` | navigation2/nav2_costmap_2d/plugins/plugin_container_layer.cpp:95-128 | the container becomes the run of its enabled plugins, each by its own setting, then the master is merged with it by the container's own; a disabled container changes nothing |
| `ObstacleClip.ClipToMap` | navigation2/nav2_costmap_2d/plugins/obstacle_layer.cpp:666-693 | a ray from a sensor on the map is cut to an endpoint within the edge gap of the ray and never beyond an upper edge, a point in the box is not moved, and the endpoint is in the closed box if and only if the map is not narrower than the gap behind the upper edge the ray leaves through |
| `ObstacleClip.NarrowMapEscapes` | navigation2/nav2_costmap_2d/plugins/obstacle_layer.cpp:684-688 | on a map half a millimetre wide a ray to the right ends left of the map |
| `PointInPolygon.IsPointInside` | navigation2/nav2_collision_monitor/src/polygon.cpp:598-628 | the loop computes the parity of the crossing edges of the closed polygon |
| `PointInPolygon.CrossesBySide` | navigation2/nav2_collision_monitor/src/polygon.cpp:615-624 | the division in the test decides on which side of the edge the point lies |
| `PointInPolygon.InsideRotates` | navigation2/nav2_collision_monitor/src/polygon.cpp:598-628 | the answer does not depend on the starting vertex |
| `PointInPolygon.InsideReverses` | navigation2/nav2_collision_monitor/src/polygon.cpp:598-628 | the answer does not depend on the direction |
| `PointInPolygon.InsideSplits` | navigation2/nav2_collision_monitor/src/polygon.cpp:598-628 | cutting along any diagonal, the answer is the exclusive or of the two parts |
| `PointInPolygon.StraddlesEven` | navigation2/nav2_collision_monitor/src/polygon.cpp:615-618 | an even number of edges straddle any level |
| `PointInPolygon.OutsideBoxIsOutside` | navigation2/nav2_collision_monitor/src/polygon.cpp:598-628 | a point outside the bounding box is reported outside |
| `PointInPolygon.TriangleTest` | navigation2/nav2_collision_monitor/src/polygon.cpp:598-628 | for a counter-clockwise triangle: points strictly in it are reported inside, points reported inside are not out of it |
| `PointInPolygon.TriangleTestClockwise` | navigation2/nav2_collision_monitor/src/polygon.cpp:598-628 | the same for a clockwise triangle |
| `PointInPolygon.InsideIsFanParity` | navigation2/nav2_collision_monitor/src/polygon.cpp:598-628 | for every polygon the answer is the parity of the triangles of its fan that contain the point |
| `PointInPolygon.GetPointsInside` | navigation2/nav2_collision_monitor/src/polygon.cpp:226-235 | the number of points reported inside |
| `PointInPolygon.PointsInsideCounts` | navigation2/nav2_collision_monitor/src/polygon.cpp:226-235 | that number is the number of positions whose point is reported inside |
| `PointInPolygon.PointsInsideConcat` | navigation2/nav2_collision_monitor/src/polygon.cpp:237-253 | the points of several sources are counted one source at a time |
| `Kinematics.TransformPoints` | navigation2/nav2_collision_monitor/src/kinematics.cpp:22-42 | every point is replaced, in place, by its coordinates in the frame of the pose |
| `Kinematics.ProjectState` | navigation2/nav2_collision_monitor/src/kinematics.cpp:44-68 | the pose moves by the old velocity, then both turn |
| `Kinematics.StepInPlainTerms` | navigation2/nav2_collision_monitor/src/kinematics.cpp:44-68 | in every simulated step the pose moves by the time step times the velocity of that step, and the velocity turns to the left by the angle turned: its dot and cross product with the next are the squared speed times the cosine and the sine |
| `Kinematics.StraightOn` | navigation2/nav2_collision_monitor/src/kinematics.cpp:44-68 | with no turn, after any number of steps the robot is where the velocity takes it in that time |
| `Kinematics.VelocityFollowsHeading` | navigation2/nav2_collision_monitor/src/kinematics.cpp:44-68 | for sine and cosine that add angles: after any number of steps the velocity is the commanded one turned by the heading |
| `Kinematics.SpeedKept` | navigation2/nav2_collision_monitor/src/kinematics.cpp:44-68 | after any number of steps the speed and turn rate are the initial ones and the heading is the number of steps times the turn |
| `Kinematics.DistancesKept` | navigation2/nav2_collision_monitor/src/kinematics.cpp:22-42 | the transformation keeps all distances between points |
| `Kinematics.TransformUndone` | navigation2/nav2_collision_monitor/src/kinematics.cpp:22-42 | rotating back and adding the pose undoes the transformation |
| `Zones.Polygon.GetPointsInside` | navigation2/nav2_collision_monitor/src/polygon.cpp:237-253 | the number of points inside over the polygon's own sources |
| `Zones.Polygon.GetCollisionTime` | navigation2/nav2_collision_monitor/src/polygon.cpp:255-299 | the result is the first sampled hit: 0 if enough points are inside already, else k steps for the least k whose next pose hits within the look-ahead, and -1 if and only if none does |
| `Zones.Polygon.FirstHitUnique` | navigation2/nav2_collision_monitor/src/polygon.cpp:276-298 | there is only one such time |
| `Zones.Polygon.FirstHitInHorizon` | navigation2/nav2_collision_monitor/src/polygon.cpp:276-298 | the time is -1 or between 0 and the look-ahead time |
| `Zones.Polygon.HitStraight` | navigation2/nav2_collision_monitor/src/polygon.cpp:276-298 | moving straight the zone is hit after a number of steps if and only if enough points, shifted back by the way gone, are in it |
| `Zones.Polygon.CollisionStraight` | navigation2/nav2_collision_monitor/src/polygon.cpp:255-299 | the collision time of a straight command in plain coordinates: 0, the first step within the look-ahead whose end brings enough points into the zone, or -1 if there is none |
| `SafetyFilter.LimitKeepsLimits` | navigation2/nav2_collision_monitor/src/collision_monitor_node.cpp:553-568 | the limited velocity is within both the linear and the angular limit |
| `SafetyFilter.LimitTakesNoMore` | navigation2/nav2_collision_monitor/src/collision_monitor_node.cpp:553-568 | the ratio is 1 where neither limit is exceeded, and otherwise one speed ends exactly at its limit |
| `SafetyFilter.LessByRatio` | navigation2/nav2_collision_monitor/include/nav2_collision_monitor/types.hpp:30-36 | scaled commands compare as their ratios do |
| `SafetyFilter.TightestIsLeast` | navigation2/nav2_collision_monitor/src/collision_monitor_node.cpp:482-508 | the decided ratio is the least of 1 and all demanded ratios |
| `SafetyFilter.TightestOrderFree` | navigation2/nav2_collision_monitor/src/collision_monitor_node.cpp:482-508 | the decided ratio depends only on which demands there are |
| `SafetyFilter.ZeroStays` | navigation2/nav2_collision_monitor/src/collision_monitor_node.cpp:486-489 | once stopped, the polygons skipped would not have changed the velocity |
| `Monitor.CollisionMonitor.GatherPoints` | navigation2/nav2_collision_monitor/src/collision_monitor_node.cpp:433-449 | an enabled source with a timeout and no valid data asks for a stop, otherwise the points of all enabled sources are collected by name |
| `Monitor.CollisionMonitor.ProcessStopSlowdownLimit` | navigation2/nav2_collision_monitor/src/collision_monitor_node.cpp:524-581 | the action obeys the polygon: velocity the lesser of the one before and the demanded one, and reported as changed if and only if this polygon changed it |
| `Monitor.CollisionMonitor.ProcessApproach` | navigation2/nav2_collision_monitor/src/collision_monitor_node.cpp:583-610 | the same for an approach polygon, with the time to collision over the look-ahead as ratio |
| `Monitor.CollisionMonitor.ApplyZone` | navigation2/nav2_collision_monitor/src/collision_monitor_node.cpp:491-507 | one polygon more: the ratio becomes the lesser of the ratio so far and the demanded one, and the polygon blamed is one that triggered |
| `Monitor.CollisionMonitor.DecideAction` | navigation2/nav2_collision_monitor/src/collision_monitor_node.cpp:426-508 | the decided velocity is the command times the share described next; a polygon is blamed only if it decides that share, and with valid sources one is blamed whenever less than all of a non-zero command passes |
| `Monitor.CollisionMonitor.EveryZoneKept` | navigation2/nav2_collision_monitor/src/collision_monitor_node.cpp:524-610 | with enough points of its own sources in it a stop zone leaves nothing, a slowdown zone at most its ratio, a limit zone at most both limits; an approach zone leaves at most the collision time over its look-ahead |
| `Monitor.CollisionMonitor.SomeZoneDecides` | navigation2/nav2_collision_monitor/src/collision_monitor_node.cpp:426-508 | and no less: if not all of the command passes, the share is exactly what some enabled zone that is hit or approached leaves; an invalid source leaves nothing |
| `Monitor.CollectedIsSeen` | navigation2/nav2_collision_monitor/src/polygon.cpp:237-253 | the points a zone is tested with are those of the enabled sources of its own names, name by name and in order |
| `Monitor.SeenMembers` | navigation2/nav2_collision_monitor/src/collision_monitor_node.cpp:433-449 | a point is among them if and only if an enabled source of one of these names delivers it |
| `Monitor.CollisionMonitor.NoZoneOverrun` | navigation2/nav2_collision_monitor/src/collision_monitor_node.cpp:413-522 | the decided velocity never exceeds what any triggered polygon allows, and an invalid source stops the robot |
| `Monitor.CollisionMonitor.OrderFree` | navigation2/nav2_collision_monitor/src/collision_monitor_node.cpp:482-508 | the decided velocity does not depend on the order of the polygons |
| `Monitor.CollisionMonitor.NotifyActionState` | navigation2/nav2_collision_monitor/src/collision_monitor_node.cpp:612-658 | the polygon is only looked at when there is one |
| `Monitor.CollisionMonitor.PublishVelocity` | navigation2/nav2_collision_monitor/src/collision_monitor_node.cpp:213-235 | the stamp marks the change to zero, and only a zero past the timeout after a zero is withheld |
| `Monitor.CollisionMonitor.Process` | navigation2/nav2_collision_monitor/src/collision_monitor_node.cpp:413-522 | an active call decides as above, blames a polygon that decides, and publishes as the state machine does; an inactive one does nothing |
| `Monitor.CollisionMonitor.OnDeactivate` | navigation2/nav2_collision_monitor/src/collision_monitor_node.cpp:140-166 | deactivation is the state machine's: the previous action is forgotten |
| `Monitor.SilentOnlyWhenStopped` | navigation2/nav2_collision_monitor/src/collision_monitor_node.cpp:213-235 | over every run of activations, deactivations and commands: after an active decision of zero the last message is zero, and every non-zero decision is published |
| `Monitor.StopIsRepeated` | navigation2/nav2_collision_monitor/src/collision_monitor_node.cpp:213-235 | a stop is published when it comes and again at exactly the later decisions within the timeout of it |
| `Monitor.RestartPublishesStop` | navigation2/nav2_collision_monitor/src/collision_monitor_node.cpp:140-166 | nothing is published while inactive, and the first stop after the next activation is, whatever was decided before |
| `SpinBehavior.UnwrappedStep` | navigation2/nav2_behaviors/plugins/spin.cpp:121-124 | one cycle adds the rotation up to whole turns, at most half a turn, and exactly the rotation if and only if that is under half a turn (or exactly half, seen in its own direction) |
| `SpinBehavior.RelativeYawModuloTurns` | navigation2/nav2_behaviors/plugins/spin.cpp:121-127 | over any run the accumulated yaw is the net rotation up to whole turns |
| `SpinBehavior.RelativeYawIsRotation` | navigation2/nav2_behaviors/plugins/spin.cpp:121-127 | if each rotation is under half a turn, the accumulated yaw is exactly the net rotation |
| `SpinBehavior.SuccessIsRotation` | navigation2/nav2_behaviors/plugins/spin.cpp:132-136 | the success test then tests the net rotation against the command less 1e-6 |
| `SpinBehavior.IsCollisionFree` | navigation2/nav2_behaviors/plugins/spin.cpp:162-189 | true if and only if the checker passes every heading before the sweep reaches the yaw already accumulated |
| `SpinBehavior.HeadingsAhead` | navigation2/nav2_behaviors/plugins/spin.cpp:174-187 | when it is true every heading the velocity leads to, in its own direction, before the sweep reaches the yaw already accumulated is free |
| `SpinBehavior.BlockedAhead` | navigation2/nav2_behaviors/plugins/spin.cpp:174-187 | when it is not, one of these headings is not free |
| `SpinBehavior.FullyExaminedIff` | navigation2/nav2_behaviors/plugins/spin.cpp:174-187 | the whole look-ahead is examined if and only if its last sweep is short of the yaw already turned |
| `SpinBehavior.WayExaminedIff` | navigation2/nav2_behaviors/plugins/spin.cpp:174-187 | the headings short of the goal are all examined if and only if the last of them is short of the yaw already turned |
| `SpinBehavior.NothingExaminedIff` | navigation2/nav2_behaviors/plugins/spin.cpp:179-181 | a look-ahead of any length examines nothing if and only if no yaw has been accumulated |
| `SpinBehavior.WayExaminedPastHalf` | navigation2/nav2_behaviors/plugins/spin.cpp:174-187 | from half way to the goal on, every heading on the way is examined |
| `SpinBehavior.FirstCycleIgnoresCollisions` | navigation2/nav2_behaviors/plugins/spin.cpp:132-157 | a robot that has not turned yet is set going although the checker rejects every heading |
| `SpinBehavior.Spin.OnRun` | navigation2/nav2_behaviors/plugins/spin.cpp:74-97 | a run starts with nothing accumulated; without a pose nothing changes |
| `SpinBehavior.Spin.OnCycleUpdate` | navigation2/nav2_behaviors/plugins/spin.cpp:99-160 | success exactly when the accumulated yaw reaches the command, timeout and missing pose exactly on their conditions, a published speed clamped and signed as commanded with a clear sweep, a stop on every other outcome but a missing pose |
| `CommandShell.StrTok` | andino_firmware/src/shell.cpp:79-89 | in place: the next token is cut off with its NUL, and what follows holds the remaining tokens; characters before and after are untouched |
| `CommandShell.Shell.RegisterCommand` | andino_firmware/src/shell.cpp:40-49 | the command is appended unless the registry is full |
| `CommandShell.Shell.ProcessInput` | andino_firmware/src/shell.cpp:51-77 | the buffer and everything executed are those of the byte-by-byte framing; the index stays in the buffer |
| `CommandShell.Shell.ParseMessage` | andino_firmware/src/shell.cpp:79-89 | the callback gets the first fifteen words of the message, found in place |
| `CommandShell.Shell.ExecuteCallback` | andino_firmware/src/shell.cpp:91-103 | the first command of that name runs, else the default |
| `CommandShell.FirstMatchRuns` | andino_firmware/src/shell.cpp:91-103 | the first command whose name is the first word runs, whatever follows it |
| `CommandShell.DefaultRuns` | andino_firmware/src/shell.cpp:91-103 | with none of that name the default runs, if there is one |
| `CommandShell.PutAllSplits` | andino_firmware/src/shell.cpp:51-77 | it does not matter how the bytes are split over calls |
| `CommandShell.FramingIsSplitting` | andino_firmware/src/shell.cpp:51-77 | for every byte stream: the messages are the parts between carriage returns, without line feeds, each keeping its last (length mod 64) characters |
| `CommandShell.ShortMessagesArrive` | andino_firmware/src/shell.cpp:70-74 | a message arrives whole if and only if it has fewer than 64 characters |
| `Decimal.AtoIUndoesToString` | andino_firmware/src/app.cpp:225-229 | parsing undoes printing for every integer, whatever non-digit follows |
| `Decimal.Int16Exactly` | andino_firmware/platformio.ini:12-22 | the 16 bits of an `int` on the boards keep a number if and only if it is in -0x8000..0x7FFF |
| `Decimal.AtoI16Wraps` | andino_firmware/src/app.cpp:244-245 | `atoi` on the boards, wrapping at every digit, gives what 16 bits leave of the number in the text, for every text |
| `Decimal.AtoI16Printed` | andino_firmware/src/app.cpp:244-245 | a printed number is read there as what 16 bits leave of it |
| `HostProtocol.MotorCommandArrives` | andino_base/src/motor_driver.cpp:75-79 | for all 32-bit speeds, however the bytes are cut, one message is completed whose arguments are the two numbers, read on the boards as what 16 bits leave of them |
| `HostProtocol.EncoderReplyArrives` | andino_base/src/motor_driver.cpp:65-73 | the host reads back the two counts the firmware prints, for all integers |
| `HostProtocol.MessagesArrive` | andino_firmware/src/shell.cpp:51-89 | any list of plain messages of at most 63 characters is completed in order, however the bytes are cut, each with its first fifteen words |
| `HostProtocol.ProcessChunks` | andino_firmware/src/shell.cpp:51-77 | many calls on one shell leave the text and the executed commands of one call on all the bytes |
| `HostProtocol.DispatchMessages` | andino_firmware/src/shell.cpp:51-103 | each plain message is dispatched once and in order, however the bytes are cut into calls |
| `PidControl.Pid.DoCompute` | andino_firmware/src/pid.cpp:93-124 | the fields become those of one step of the controller; the output is written only when enabled |
| `PidControl.StepInPlainTerms` | andino_firmware/src/pid.cpp:101-123 | the three terms over the output gain, rounded toward zero, are added to the last output and cut to the limits; the integral grows by ki times the error if neither limit was met; input and count are remembered |
| `PidControl.OutputFollowsTerms` | andino_firmware/src/pid.cpp:101-123 | between the limits the output gain times the change of the output is less than one gain away from the sum of the three terms, and on the side of zero |
| `PidControl.DerivativeDamps` | andino_firmware/src/pid.cpp:105 | with no other term a rising input never raises the output and a falling one never lowers it |
| `PidControl.IntegralDrives` | andino_firmware/src/pid.cpp:105 | with no other term the output moves to the side of the integral |
| `PidControl.Pid.DoReset` | andino_firmware/src/pid.cpp:74-82 | everything but the gains, limits and enable flag is cleared |
| `PidControl.OutputStaysInLimits` | andino_firmware/src/pid.cpp:105-123 | over every run the last output stays within the limits |
| `PidControl.IntegralGrows` | andino_firmware/src/pid.cpp:108-117 | without a clearing in between, the integral grows by exactly ki times the error of each enabled, unsaturated step |
| `PidControl.IntegralIsSumOfFreeSteps` | andino_firmware/src/pid.cpp:74-124 | over every run the integral is the sum of ki times the error over exactly the enabled, unsaturated steps since the last clearing |
| `PidControl.SteadyStateHolds` | andino_firmware/src/pid.cpp:101-123 | on the setpoint for two steps with no integral the output does not move |
| `PidControl.OutputFollowsError` | andino_firmware/src/pid.cpp:101-123 | with positive gains and no other terms the output moves toward the setpoint |
| `QuadratureEncoder.DeltaIsGrayStep` | andino_firmware/src/encoder.h:120 | the table is exact for the same or an adjacent state and zero for a missed one |
| `QuadratureEncoder.CountModuloCycle` | andino_firmware/src/encoder.cpp:112-119 | for every run of readings the count plus two per missed state is, modulo 4, the way from the first to the last state |
| `QuadratureEncoder.CountIsDisplacement` | andino_firmware/src/encoder.cpp:112-119 | if no state is missed the count is exactly the displacement |
| `QuadratureEncoder.Encoder.Callback` | andino_firmware/src/encoder.cpp:112-119 | the shifted byte always indexes the table by the previous and the current reading |
| `QuadratureEncoder.Encoder.Reset` | andino_firmware/src/encoder.cpp:110 | the count is zero, the last reading is kept |
| `MotorOutput.Motor.SetSpeed` | andino_firmware/src/motor.cpp:80-99 | at most one pin is driven, both are in 0..255, and their difference is the clamped speed |
| `Firmware.ElapsedIsTrue` | andino_firmware/src/app.cpp:167-177 | the unsigned difference of two clock readings is the true elapsed time if and only if that is below 2^32 |
| `Firmware.NextKeepsSound` | andino_firmware/src/app.cpp:163-284 | every step keeps both controllers switched together and each motor driven one way at most |
| `Firmware.PwmDrivesEach` | andino_firmware/src/app.cpp:268-284 | an open-loop command drives each motor by its own number, cut to a duty, with both controllers off and started over from their own counts |
| `Firmware.SpeedSetsEach` | andino_firmware/src/app.cpp:239-266 | a speed command gives each controller its own number in ticks for each period, switches both on unless both numbers are zero, and stamps the timer |
| `Firmware.DueCheckDrivesEach` | andino_firmware/src/app.cpp:166-196 | a check more than 33 ms after the last computes each controller from its own encoder and drives each motor by its own controller |
| `Firmware.CheckNotDue` | andino_firmware/src/app.cpp:166-170 | a check no more than 33 ms after the last does nothing |
| `Firmware.ResetStartsOver` | andino_firmware/src/app.cpp:231-237 | resetting the encoders makes both counts zero and starts both controllers over from zero |
| `Firmware.RunConcat` | andino_firmware/src/app.cpp:163-183 | a run of the loop is the runs of its parts |
| `Firmware.StopCheckHalts` | andino_firmware/src/app.cpp:173-177 | the stop branch leaves both outputs zero and both controllers disabled, and stamps the timer |
| `Firmware.HaltedThroughout` | andino_firmware/src/app.cpp:163-284 | a halted robot stays halted through any run without a motion command |
| `Firmware.StampedOrHalted` | andino_firmware/src/app.cpp:163-284 | over any run without a motion command the timer keeps its stamp or the robot is halted |
| `Firmware.UnattendedMotorsStop` | andino_firmware/src/app.cpp:163-203 | whatever else happens, a stop check more than the window after the last motion stamp leaves the robot halted until the next motion command, across clock wrap |
| `Firmware.FirstCheckAfterPwm` | andino_firmware/src/app.cpp:268-284 | after an open-loop drive, with any open-loop and other commands around it, the first stop check halts the robot if and only if the clock shows more than the window since the timer's stamp |
| `Firmware.PwmDoesNotRestartTimer` | andino_firmware/src/app.cpp:268-284 | any later stop check, with the checks made before it: it finds or leaves the robot halted if and only if the window has passed since the timer was stamped, whenever the drive began |
| `Firmware.AutoStopAsDocumentedIff` | andino_firmware/src/constants.h:39-40 | any later check acts as documented on an open-loop command if and only if it does not fall between the end of the window since the timer's stamp and the end of the command's own |
| `FirmwareApp.GainsSplit` | andino_firmware/src/app.cpp:299-304 | the fields of four integers joined by colons are what 16 bits leave of the four gains |
| `FirmwareApp.UsableGainsIff` | andino_firmware/src/app.cpp:293-306 | such a text can be used if and only if it fits the 20-character buffer it is copied to and the output gain is not a multiple of 65536 |
| `FirmwareApp.GainsArrive` | andino_firmware/src/app.cpp:286-316 | for all gains whose text fits the buffer, the command makes the firmware take exactly one step, with what 16 bits leave of those gains, usable if and only if the output gain is not a multiple of 65536 |
| `FirmwareApp.GainsArriveAtControllers` | andino_firmware/src/app.cpp:286-316 | from the bytes: both controllers then hold the four gains, each for its own term, as 16 bits leave them |
| `FirmwareApp.ParseGains` | andino_firmware/src/app.cpp:292-304 | the loop reads the first four fields, zero for a missing one |
| `FirmwareApp.NullNameExactlyWhenBlank` | andino_firmware/src/shell.cpp:91-103 | a message leads to the comparison of a null name if and only if it has no words |
| `FirmwareApp.HostSpeedsArrive` | andino_base/src/motor_driver.cpp:75-79 | in one call: the bytes the host writes for two 32-bit speeds make the firmware take exactly one step, with what 16 bits leave of them, and so with those speeds if and only if both are in -0x8000..0x7FFF |
| `FirmwareApp.SpeedsHaltIff` | andino_firmware/src/app.cpp:239-266 | the same bytes leave the robot halted if and only if both speeds are multiples of 65536 |
| `FirmwareApp.WideSpeedStops` | andino_firmware/src/app.cpp:244-255 | speeds of 65536 and 0 stop a running robot |
| `FirmwareApp.PwmArrivesAtMotors` | andino_firmware/src/app.cpp:268-284 | from the bytes: after an open-loop message the left motor is driven by the first number and the right one by the second, as 16 bits leave them, cut to -255..255 |
| `FirmwareApp.SpeedsArriveAtControllers` | andino_firmware/src/app.cpp:239-266 | from the bytes: the left controller has the first speed over 30 as setpoint and the right one the second, and the next due check computes each from its own encoder and drives its own motor |
| `FirmwareApp.ResetArrives` | andino_firmware/src/app.cpp:231-237 | from the bytes: after a reset message both counts are zero and both controllers start over from zero |
| `FirmwareApp.HostReadsCounts` | andino_base/src/motor_driver.cpp:65-73 | the reply to the host's encoder request parses back to the counts held |
| `FirmwareApp.App.Setup` | andino_firmware/src/app.cpp:126-161 | a halted robot stays halted, its controllers are cleared at the counts, and all nine commands and the default are registered |
| `FirmwareApp.Start` | andino_firmware/src/app.cpp:86-161 | made with the constants and set up, the robot is halted, with nothing counted and no text waiting |
| `FirmwareApp.GainsAtStart` | andino_firmware/src/app.cpp:113-116 | the gains are 30, 10, 0 and 10 and the limits -255 and 255 on both sides |
| `FirmwareApp.App.AdjustMotorsSpeed` | andino_firmware/src/app.cpp:185-196 | both controllers take one step, and only an enabled one drives its motor |
| `FirmwareApp.App.StopMotors` | andino_firmware/src/app.cpp:198-203 | both motors are set to zero and both controllers disabled |
| `FirmwareApp.App.CmdSetMotorsSpeed` | andino_firmware/src/app.cpp:239-266 | the fields become those of the speed step of the state machine |
| `FirmwareApp.App.CmdSetMotorsPwm` | andino_firmware/src/app.cpp:268-284 | the fields become those of the open-loop step of the state machine |
| `FirmwareApp.App.CmdResetEncoders` | andino_firmware/src/app.cpp:231-237 | counts are zero and the controllers cleared at zero |
| `FirmwareApp.App.CmdSetPidTuningGains` | andino_firmware/src/app.cpp:286-316 | both controllers get the parsed gains, and the reply repeats them |
| `FirmwareApp.App.CheckPids` | andino_firmware/src/app.cpp:166-170 | past the period both controllers take one step, otherwise nothing happens |
| `FirmwareApp.App.CheckAutoStop` | andino_firmware/src/app.cpp:172-177 | past the window the robot is halted and the timer restarts, otherwise nothing happens |
| `FirmwareApp.App.CmdReadEncoders` | andino_firmware/src/app.cpp:225-229 | the printed line is the reply the host parses |
| `FirmwareApp.App.Execute` | andino_firmware/src/app.cpp:205-316 | each dispatched command takes the step and prints the line its name and arguments ask for; too few arguments do nothing |
| `FirmwareApp.App.Loop` | andino_firmware/src/app.cpp:163-183 | one turn of the loop is the run of the dispatched commands followed by the two timed checks, and prints their replies in order |
| `FirmwareApp.App.EncodersMove` | andino_firmware/src/encoder.cpp:112-119 | any run of channel readings moves the two counts by exactly what the readings count, and nothing else |
| `FirmwareTurns.TurnsExecuteAll` | andino_firmware/src/app.cpp:163-165 | however any bytes are spread over turns of the loop, the same commands are executed in the same order, each once |
| `FirmwareTurns.HostSpeedsArriveInTurns` | andino_base/src/motor_driver.cpp:75-79 | however the bytes are spread over turns: exactly one command step, with what 16 bits leave of the speeds, and in all turns otherwise only the encoders' moves and the timed checks |
| `FirmwareTurns.UnattendedTurnsStop` | andino_firmware/src/app.cpp:163-203 | turns that execute no motion command leave the robot halted once one of them makes its stop check more than the window after the last stamp |
| `FirmwareTurns.PwmCutOffInTurns` | andino_firmware/src/app.cpp:163-284 | an open-loop command anywhere in any number of turns, with other commands before and after it: the robot is halted at the end if and only if the last check comes more than the window after the timer's stamp |
| `FirmwareTurns.PwmMessageCutOff` | andino_firmware/src/app.cpp:163-284 | the same for the bytes of one open-loop message, however they are spread over the turns |
| `FirmwareTurns.CutOffAtOnce` | andino_firmware/src/app.cpp:172-284 | a robot just started, driven open loop at 2899 ms, still runs after the checks at 2900 and 2950 ms and is halted by the one at 3001 ms |
| `FirmwareTurns.LoopAll` | andino_firmware/src/app.cpp:163-183 | many turns of the loop are the run of the encoders' moves, the commands of all their bytes and the timed checks of each turn, and halt a robot that is left alone |

## Left out

- Brushfire.ExactIffConnected: asks for a single nearest obstacle at every reached cell; with ties the labels depend on the order in which the bins are read, and `Brushfire.ExactOnSafeWay` gives the half that holds regardless.
- Brushfire.ExactOnOwnPath: one direction, along cells with a single nearest obstacle; `Brushfire.ExactIffConnected` has both for maps without ties, `Brushfire.ExactOnSafeWay` goes through tied cells.
- Brushfire.ExactOnSafeWay: one direction, as with ties which obstacle a cell off every safe way is labelled for depends on the order of the bins.
- Brushfire.NearestKeptIff: one step, about the labels of the run; `Brushfire.ExactIffConnected` is about the map.
- Inflation.Setting.ManyObstaclesExact: one direction, along cells with a single nearest obstacle; `Inflation.Setting.ManyObstaclesExactIff` has both for maps without ties, `Inflation.Setting.ManyObstaclesNearest` goes through tied cells.
- Inflation.Setting.ManyObstaclesNearest: one direction, for the reason given for `Brushfire.ExactOnSafeWay`.
- Inflation.Setting.OneObstacleIdempotent: one obstacle, whatever order the bins are read in; `Inflation.Setting.InflationIdempotent` has any number, for the order of the code.
- LayerMerge.ContainerUpdateCosts: the plugins are costmap layers; an inflation layer inside a container, which works on the container's array itself, is in `InflationPlugin` alone.
- HostProtocol.MessagesArrive: framing only; `HostProtocol.DispatchMessages` goes on to the callbacks.
- HostProtocol.MotorCommandArrives: asks for 32-bit speeds, which is what the host's integers are.
- FirmwareApp.HostSpeedsArrive: one call only; `FirmwareTurns.HostSpeedsArriveInTurns` has any number.
- FirmwareApp.App.CmdSetPidTuningGains: asks for an argument that fits its 20-character buffer and an output gain that is not zero; otherwise the copy is undefined, or the next step of an enabled controller divides by zero.
- FirmwareApp.App.Execute: asks the same of a gain command.
- FirmwareApp.App.Loop: asks the same of the gain commands in its input, and runs the callbacks after the bytes of one call rather than between them; they do not touch the shell.
- FirmwareTurns.LoopAll: asks the same of all its inputs, and lets the encoders move between the calls of the loop rather than within one.
- PolygonFill.PolygonOutlineCells: asks for a nonempty polygon, as on an empty one the loop bound wraps around; `convexFillCells` never passes one.
- RankTable.StdSort: stands for `std::sort` on the offsets, as a selection by squared length; only its contract is used.
- PidControl.SteadyStateHolds: asks for an integral of zero, as a nonzero integral moves the output even on the setpoint.
- Zones.Polygon.GetCollisionTime: asks for a positive time step, without which the source loop does not end.
- Floating-point rounding: reals are exact, so equalities hold up to rounding only; `SpinBehavior.SpeedFor` takes any function for the square root.
- Integer widths of grid indices, counts and controller terms; the 16-bit `int` into which the firmware parses, the wrap of the millisecond clock, the encoder's state byte and the cost bytes are modelled.
- MotorOutput.Motor.SetSpeed: negates in unbounded integers; on the boards a duty of -0x8000 has no negative in an `int`.
- The merge `updateWithTrueOverwrite`, `clearArea` and the extra bounds: the same loops with simpler cell rules.
- Shapes of collision polygons that follow the velocity or a topic, and their transform to the base frame: a polygon's vertices are given.
- What the analog, digital and IMU commands print, and the host's floating-point printing of gains.
- Setting up serial ports, pins, interrupts and sensors, and a wait on the host for a reply that times out.
- Denoise, range sensor, AMCL, smoother, behaviour trees and controller server, ROS lifecycle, parameters, logging and locking.

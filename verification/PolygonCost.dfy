/** Setting the cost of a polygon given in world coordinates
    (`setConvexPolygonCost`). */
module PolygonCost {
  import opened Prelude
  import opened GridIndex
  import opened Costmap
  import opened Bresenham
  import opened PolygonFill
  import opened WorldCoordinates

  datatype WorldPoint = WorldPoint(x: real, y: real)

  /** The cell a world point falls into, before the size check. */
  function CellOf(grid: Costmap2D, w: WorldPoint): MapLocation
    reads grid
    requires grid.Valid()
  {
    MapLocation(grid.AxisX().Cell(w.x), grid.AxisY().Cell(w.y))
  }

  /** What `worldToMap` returns. */
  predicate OnMap(grid: Costmap2D, w: WorldPoint)
    reads grid
    requires grid.Valid()
  {
    grid.AxisX().Legal(w.x) && grid.AxisY().Legal(w.y)
  }

  lemma OnMapInMap(grid: Costmap2D, w: WorldPoint)
    requires grid.Valid() && OnMap(grid, w)
    ensures InMap(grid.sizeX, grid.sizeY, CellOf(grid, w).x, CellOf(grid, w).y)
  {
    hide Axis.Cell;
    grid.AxisX().CellBelow(w.x, 0);
    grid.AxisY().CellBelow(w.y, 0);
  }

  /** `now` is `was` with `cost` in exactly the cells listed. */
  ghost predicate Painted(grid: Costmap2D, was: seq<Byte>, now: seq<Byte>, cells: seq<MapLocation>, cost: Byte)
    reads grid
  {
    |was| == |now| == grid.sizeX * grid.sizeY
    && forall x, y :: InMap(grid.sizeX, grid.sizeY, x, y) ==>
         At(now, grid.sizeX, grid.sizeY, x, y)
           == if MapLocation(x, y) in cells then cost else At(was, grid.sizeX, grid.sizeY, x, y)
  }

  /** The cells a filled polygon covers: between two outline cells of a column. */
  ghost predicate Filled(grid: Costmap2D, was: seq<Byte>, now: seq<Byte>, outline: seq<MapLocation>, cost: Byte)
    reads grid
  {
    |was| == |now| == grid.sizeX * grid.sizeY
    && forall x, y :: InMap(grid.sizeX, grid.sizeY, x, y) ==>
         At(now, grid.sizeX, grid.sizeY, x, y)
           == if InHull(outline, MapLocation(x, y)) then cost else At(was, grid.sizeX, grid.sizeY, x, y)
  }

  /** `setConvexPolygonCost`. */
  method SetConvexPolygonCost(grid: Costmap2D, polygon: seq<WorldPoint>, costValue: Byte)
    returns (ok: bool, ghost vertices: seq<MapLocation>, ghost rays: seq<seq<MapLocation>>)
    requires grid.Valid()
    modifies grid.costmap
    ensures ok <==> forall k :: 0 <= k < |polygon| ==> OnMap(grid, polygon[k])
    ensures !ok || |polygon| < 3 ==> grid.costmap[..] == old(grid.costmap[..])
    ensures ok ==> |vertices| == |polygon| && forall k :: 0 <= k < |polygon| ==> vertices[k] == CellOf(grid, polygon[k])
    ensures ok && |polygon| >= 3 ==>
      Edges(vertices, rays) && Filled(grid, old(grid.costmap[..]), grid.costmap[..], Flatten(rays), costValue)
  {
    hide At, Index, Edges, Flatten, InHull, CellOf;
    var mapPolygon := [];
    vertices, rays := [], [];
    for i := 0 to |polygon|
      invariant |mapPolygon| == i && grid.costmap[..] == old(grid.costmap[..])
      invariant forall k :: 0 <= k < i ==> OnMap(grid, polygon[k]) && mapPolygon[k] == CellOf(grid, polygon[k])
      invariant forall k :: 0 <= k < i ==> InMap(grid.sizeX, grid.sizeY, mapPolygon[k].x, mapPolygon[k].y)
    {
      if !OnMap(grid, polygon[i]) {
        return false, vertices, rays;
      }
      OnMapInMap(grid, polygon[i]);
      mapPolygon := mapPolygon + [CellOf(grid, polygon[i])];
    }
    vertices := mapPolygon;
    var cells;
    cells, rays := ConvexFillCells(grid.sizeX, grid.sizeY, mapPolygon);
    ghost var was := grid.costmap[..];
    Paint(grid, cells, costValue);
    if |polygon| >= 3 {
      PaintedIsFilled(grid, was, grid.costmap[..], cells, Flatten(rays), costValue);
    }
    ok := true;
  }

  lemma PaintedIsFilled(grid: Costmap2D, was: seq<Byte>, now: seq<Byte>, cells: seq<MapLocation>,
                        outline: seq<MapLocation>, cost: Byte)
    requires Painted(grid, was, now, cells, cost) && forall c :: c in cells <==> InHull(outline, c)
    ensures Filled(grid, was, now, outline, cost)
  {
    hide At, InHull;
  }

  /** Set the cost of the listed cells. */
  method Paint(grid: Costmap2D, cells: seq<MapLocation>, costValue: Byte)
    requires grid.Valid() && forall c :: c in cells ==> InMap(grid.sizeX, grid.sizeY, c.x, c.y)
    modifies grid.costmap
    ensures Painted(grid, old(grid.costmap[..]), grid.costmap[..], cells, costValue)
    ensures cells == [] ==> grid.costmap[..] == old(grid.costmap[..])
  {
    hide At, Index;
    ghost var was := grid.costmap[..];
    for i := 0 to |cells|
      invariant Painted(grid, was, grid.costmap[..], cells[..i], costValue)
      invariant i == 0 ==> grid.costmap[..] == was
    {
      assert cells[i] in cells;
      ghost var now := grid.costmap[..];
      AtUpdate(now, grid.sizeX, grid.sizeY, cells[i].x, cells[i].y, costValue);
      var index := grid.GetIndex(cells[i].x, cells[i].y);
      grid.costmap[index] := costValue;
      assert grid.costmap[..] == now[index := costValue];
      assert cells[..i + 1] == cells[..i] + [cells[i]];
    }
    assert cells[..|cells|] == cells;
  }
}

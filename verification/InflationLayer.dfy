/** The inflation layer itself: caches, queue and the brushfire loop
    (`nav2_costmap_2d::InflationLayer`). */
module InflationPlugin {
  import opened Prelude
  import opened GridIndex
  import opened RankTable
  import opened Brushfire
  import opened BrushfireRun
  import opened CostModel
  import opened Inflation
  import opened Costmap

  function Area(n: nat): nat { n * n }

  /** `a` caches `hypot(i, j)` at `i * n + j`. */
  ghost predicate DistanceTable(model: Model, a: seq<real>, n: nat) {
    |a| == Area(n) && forall i, j :: InMap(n, n, j, i) ==> At(a, n, n, j, i) == model.hypot(i, j)
  }

  /** `a` caches the cost of distance `hypot(i, j)` at `i * n + j`. */
  ghost predicate CostTable(model: Model, a: seq<Byte>, n: nat) {
    |a| == Area(n)
    && forall i, j :: InMap(n, n, j, i) ==> At(a, n, n, j, i) == model.ComputeCost(model.hypot(i, j))
  }

  ghost predicate LevelTable(matrix: array2<nat>, n: nat)
    reads matrix
  {
    var r: int := n;
    && matrix.Length0 == matrix.Length1 == 2 * r + 1
    && forall x, y :: -r <= x <= r && -r <= y <= r ==> matrix[x + r, y + r] == Level(Offset(x, y), r)
  }

  lemma LevelsGiveTable(matrix: array2<nat>, level: nat, n: nat)
    requires var r: int := n;
      && matrix.Length0 == matrix.Length1 == 2 * r + 1
      && level == Rank(r * r)
      && forall x, y :: -r <= x <= r && -r <= y <= r ==> matrix[x + r, y + r] == Level(Offset(x, y), r)
    ensures LevelTable(matrix, n) && level == Rank(Area(n))
  {
  }

  predicate AllEmpty(bins: Bins) { forall b :: 0 <= b < |bins| ==> bins[b] == [] }

  class InflationLayer {
    var enabled: bool
    var inflateUnknown: bool
    var inflateAroundUnknown: bool
    var model: Model
    var cellInflationRadius: nat
    var cachedCellInflationRadius: nat
    var cacheLength: nat
    var inflationCells: Bins
    var seen: array<bool>
    var cachedCosts: array<Byte>
    var cachedDistances: array<real>
    var distanceMatrix: array2<nat>

    /** The distance cache is right for the radius it was computed for. */
    ghost predicate DistancesOk()
      reads this, cachedDistances
    {
      cachedCellInflationRadius > 0 ==>
        && DistanceTable(model, cachedDistances[..], cachedCellInflationRadius + 2)
        && cachedCosts.Length == Area(cachedCellInflationRadius + 2)
    }

    /** The caches are right for the current radius. */
    ghost predicate CachesOk()
      reads this, cachedDistances, cachedCosts, distanceMatrix
    {
      var n := cellInflationRadius + 2;
      && cacheLength == n
      && DistanceTable(model, cachedDistances[..], n)
      && CostTable(model, cachedCosts[..], n)
      && LevelTable(distanceMatrix, n)
      && |inflationCells| == Rank(Area(n)) + 1
    }

    ghost predicate Valid()
      reads this, cachedDistances, cachedCosts, distanceMatrix
    {
      && model.Sound() && DistancesOk()
      && (cellInflationRadius > 0 ==> CachesOk() && AllEmpty(inflationCells))
    }

    method FillDistances()
      requires cellInflationRadius > 0 && cacheLength == cellInflationRadius + 2
      modifies this`cachedDistances
      ensures fresh(cachedDistances)
      ensures DistanceTable(model, cachedDistances[..], cacheLength)
    {
      hide Index, At;
      var n := cacheLength;
      var a := new real[n * n];
      for i := 0 to n
        invariant forall i', j' :: InMap(n, n, j', i') && i' < i ==> At(a[..], n, n, j', i') == model.hypot(i', j')
      {
        for j := 0 to n
          invariant forall i', j' :: InMap(n, n, j', i') && (i' < i || (i' == i && j' < j)) ==>
            At(a[..], n, n, j', i') == model.hypot(i', j')
        {
          AtUpdate(a[..], n, n, j, i, model.hypot(i, j));
          var was := a[..];
          a[Index(n, j, i)] := model.hypot(i, j);
          assert a[..] == was[Index(n, j, i) := model.hypot(i, j)];
        }
      }
      cachedDistances := a;
    }

    method FillCosts()
      requires model.Sound()
      requires cellInflationRadius > 0 && cacheLength == cellInflationRadius + 2
      requires DistanceTable(model, cachedDistances[..], cacheLength)
      requires cachedCosts.Length == Area(cacheLength)
      modifies cachedCosts
      ensures CostTable(model, cachedCosts[..], cacheLength)
    {
      hide Index, At, Model.Sound, Model.ComputeCost;
      var n := cacheLength;
      for i := 0 to n
        invariant forall i', j' :: InMap(n, n, j', i') && i' < i ==>
          At(cachedCosts[..], n, n, j', i') == model.ComputeCost(model.hypot(i', j'))
      {
        for j := 0 to n
          invariant forall i', j' :: InMap(n, n, j', i') && (i' < i || (i' == i && j' < j)) ==>
            At(cachedCosts[..], n, n, j', i') == model.ComputeCost(model.hypot(i', j'))
        {
          AtUpdate(cachedDistances[..], n, n, j, i, 0.0);
          AtIndex(cachedDistances[..], n, n, j, i);
          var distance := cachedDistances[Index(n, j, i)];
          HypotCost(model, i, j);
          var cost: Byte := model.ComputeCost(distance);
          AtUpdate(cachedCosts[..], n, n, j, i, cost);
          var was := cachedCosts[..];
          cachedCosts[Index(n, j, i)] := cost;
          assert cachedCosts[..] == was[Index(n, j, i) := cost];
        }
      }
    }

    /** The distances and costs of `computeCaches`; the distances are kept while
        the radius stays. */
    method ComputeTables()
      requires model.Sound() && DistancesOk() && cellInflationRadius > 0
      modifies this`cacheLength, this`cachedCosts, this`cachedDistances, this`cachedCellInflationRadius, cachedCosts
      ensures DistancesOk() && cacheLength == cellInflationRadius + 2
      ensures DistanceTable(model, cachedDistances[..], cacheLength) && CostTable(model, cachedCosts[..], cacheLength)
      ensures cachedCosts == old(cachedCosts) || fresh(cachedCosts)
    {
      hide Model.Sound, Model.ComputeCost, Area, DistanceTable, CostTable;
      cacheLength := cellInflationRadius + 2;
      if cellInflationRadius != cachedCellInflationRadius {
        cachedCosts := new Byte[Area(cacheLength)](_ => 0);
        FillDistances();
        cachedCellInflationRadius := cellInflationRadius;
      }
      FillCosts();
    }

    /** The levels and bins of `computeCaches`. */
    method ComputeLevels()
      requires cacheLength == cellInflationRadius + 2
      modifies this`distanceMatrix, this`inflationCells
      ensures fresh(distanceMatrix) && LevelTable(distanceMatrix, cacheLength)
      ensures |inflationCells| == Rank(Area(cacheLength)) + 1 && AllEmpty(inflationCells)
    {
      hide Rank, Area, LevelTable;
      var level;
      level, distanceMatrix := GenerateIntegerDistances(cellInflationRadius);
      LevelsGiveTable(distanceMatrix, level, cacheLength);
      inflationCells := seq(level + 1, _ => []);
    }

    /** `computeCaches`. */
    method ComputeCaches()
      requires model.Sound() && DistancesOk()
      modifies this, cachedCosts
      ensures Valid()
      ensures model == old(model) && cellInflationRadius == old(cellInflationRadius)
      ensures enabled == old(enabled) && inflateUnknown == old(inflateUnknown)
      ensures inflateAroundUnknown == old(inflateAroundUnknown) && seen == old(seen)
      ensures cachedCosts == old(cachedCosts) || fresh(cachedCosts)
    {
      hide Model.Sound, Model.ComputeCost, Rank, Area, DistanceTable, CostTable, LevelTable, AllEmpty;
      if cellInflationRadius == 0 {
        return;
      }
      ComputeTables();
      ComputeLevels();
    }

    predicate InCache(mx: int, my: int, srcX: int, srcY: int)
      reads this`cacheLength
    {
      Abs(mx - srcX) < cacheLength && Abs(my - srcY) < cacheLength
    }

    /** `distanceLookup`. */
    method DistanceLookup(mx: int, my: int, srcX: int, srcY: int) returns (distance: real)
      requires DistanceTable(model, cachedDistances[..], cacheLength) && InCache(mx, my, srcX, srcY)
      ensures distance == model.hypot(Abs(mx - srcX), Abs(my - srcY))
    {
      hide Index, At;
      var dx := if mx > srcX then mx - srcX else srcX - mx;
      var dy := if my > srcY then my - srcY else srcY - my;
      AtIndex(cachedDistances[..], cacheLength, cacheLength, dy, dx);
      distance := cachedDistances[Index(cacheLength, dy, dx)];
    }

    /** `costLookup`. */
    method CostLookup(mx: int, my: int, srcX: int, srcY: int) returns (cost: Byte)
      requires CostTable(model, cachedCosts[..], cacheLength) && InCache(mx, my, srcX, srcY)
      ensures cost == model.CostFrom(Cell(mx, my), Cell(srcX, srcY))
    {
      hide Index, At, Model.ComputeCost;
      var dx := if mx > srcX then mx - srcX else srcX - mx;
      var dy := if my > srcY then my - srcY else srcY - my;
      AtIndex(cachedCosts[..], cacheLength, cacheLength, dy, dx);
      cost := cachedCosts[Index(cacheLength, dy, dx)];
    }

    /** The caches and bins are fit for the inflation `f`. */
    ghost predicate Ready(f: Task)
      reads this, cachedDistances, cachedCosts, distanceMatrix
    {
      && model.Sound() && cellInflationRadius > 0 && CachesOk() && DistancesOk()
      && f.reach == Area(cellInflationRadius)
    }

    /** `enqueue`: queue the cell unless it was visited or is too far off. */
    method Enqueue(index: int, mx: int, my: int, srcX: int, srcY: int, ghost f: Task, ghost lab: Labels)
      requires Ready(f) && InCache(mx, my, srcX, srcY)
      requires 0 <= index < seen.Length && (seen[index] <==> Cell(mx, my) in lab)
      modifies this`inflationCells
      ensures inflationCells == Enqueued(f, lab, old(inflationCells), CellData(Cell(mx, my), Cell(srcX, srcY)))
      ensures |inflationCells| == |old(inflationCells)|
    {
      hide Model.Sound, Rank, DistanceTable, CostTable, D2;
      if !seen[index] {
        var distance := DistanceLookup(mx, my, srcX, srcY);
        model.RadiusTest(Cell(mx, my), Cell(srcX, srcY), cellInflationRadius);
        if distance > cellInflationRadius as real {
          return;
        }
        var r := cellInflationRadius + 2;
        TableEntry(distanceMatrix, r, cellInflationRadius, Cell(mx, my), Cell(srcX, srcY));
        var dist := distanceMatrix[mx - srcX + r, my - srcY + r];
        inflationCells := inflationCells[dist :=
          inflationCells[dist] + [CellData(Cell(mx, my), Cell(srcX, srcY))]];
      }
    }

    /** The four `enqueue` calls around a newly visited cell. */
    method OfferNeighbours(index: int, mx: int, my: int, sx: int, sy: int, sizeX: nat, sizeY: nat,
                           ghost f: Task, ghost lab: Labels)
      requires Ready(f) && f.width == sizeX && f.height == sizeY
      requires InMap(sizeX, sizeY, mx, my) && index == Index(sizeX, mx, my)
      requires SeenMatches(seen[..], f, lab) && Reaches(f, Cell(mx, my), Cell(sx, sy))
      modifies this`inflationCells
      ensures Grown(f, lab, old(inflationCells), inflationCells, Cell(mx, my), Cell(sx, sy), Around(Cell(mx, my)))
      ensures inflationCells == OfferAround(f, lab, old(inflationCells), Cell(mx, my), Cell(sx, sy))
      ensures |inflationCells| == |old(inflationCells)|
    {
      hide Model.Sound, Rank, DistanceTable, CostTable, LevelTable, D2, Reaches, SeenMatches, Index, Area, Grown, Offer;
      ghost var was, m, s := inflationCells, Cell(mx, my), Cell(sx, sy);
      CacheReaches(f, cellInflationRadius, m, s);
      NeighbourIndices(sizeX, mx, my);
      BinsSized(f, inflationCells, cellInflationRadius);
      GrownStart(f, lab, was, m, s);
      ghost var offered: set<Cell> := {};
      OfferOne(mx > 0, index - 1, mx - 1, my, sx, sy, f, lab, was, m, offered);
      offered := offered + {Cell(mx - 1, my)};
      OfferOne(my > 0, index - sizeX, mx, my - 1, sx, sy, f, lab, was, m, offered);
      offered := offered + {Cell(mx, my - 1)};
      OfferOne(mx < sizeX - 1, index + 1, mx + 1, my, sx, sy, f, lab, was, m, offered);
      offered := offered + {Cell(mx + 1, my)};
      OfferOne(my < sizeY - 1, index + sizeX, mx, my + 1, sx, sy, f, lab, was, m, offered);
      offered := offered + {Cell(mx, my + 1)};
      assert offered == Around(m);
    }

    /** One guarded `enqueue`. */
    method OfferOne(inside: bool, index: int, x: int, y: int, sx: int, sy: int,
                    ghost f: Task, ghost lab: Labels, ghost was: Bins, ghost m: Cell, ghost offered: set<Cell>)
      requires Ready(f) && Adjacent(m, Cell(x, y)) && (inside <==> InGrid(f, Cell(x, y)))
      requires inside ==> InCache(x, y, sx, sy) && index == Index(f.width, x, y)
      requires SeenMatches(seen[..], f, lab)
      requires Sized(f, inflationCells) && Grown(f, lab, was, inflationCells, m, Cell(sx, sy), offered)
      modifies this`inflationCells
      ensures |inflationCells| == |old(inflationCells)| && Sized(f, inflationCells)
      ensures Grown(f, lab, was, inflationCells, m, Cell(sx, sy), offered + {Cell(x, y)})
      ensures inflationCells == Offer(f, lab, old(inflationCells), CellData(Cell(x, y), Cell(sx, sy)))
    {
      hide Model.Sound, Rank, DistanceTable, CostTable, LevelTable, D2, Index, Area, Grown, Enqueued, At, Adjacent;
      if inside {
        AtIndex(seen[..], f.width, f.height, x, y);
        GrowOne(f, lab, was, inflationCells, m, Cell(sx, sy), offered, Cell(x, y));
        Enqueue(index, x, y, sx, sy, f, lab);
      } else {
        GrowOutside(f, lab, was, inflationCells, m, Cell(sx, sy), offered, Cell(x, y));
      }
    }

    /** Where a run stands: the queue keeps its invariant, `seen_` marks the
        labelled cells, and exactly the labelled cells of the window have been
        written. */
    ghost predicate Running(g: Setting, master: Costmap2D, was: seq<Byte>, lab: Labels, level: nat, next: nat)
      reads this, seen, cachedDistances, cachedCosts, distanceMatrix, master, master.costmap
      requires |was| == g.width * g.height
    {
      var f := g.Problem(was);
      && Ready(f) && g.model == model && g.radius == cellInflationRadius
      && g.inflateUnknown == inflateUnknown && g.inflateAroundUnknown == inflateAroundUnknown
      && master.Valid() && master.sizeX == g.width && master.sizeY == g.height
      && master.costmap != cachedCosts
      && Inv(f, lab, inflationCells, level, next)
      && Reached(f, g.Queue(was), RunState(lab, inflationCells, level, next))
      && SeenMatches(seen[..], f, lab)
      && g.Wrote(was, master.costmap[..], lab)
    }

    /** Assign the cost, but only inside the caller's own bounds. */
    method WriteCost(master: Costmap2D, index: int, mx: int, my: int, cost: Byte, g: Setting)
      requires 0 <= index < master.costmap.Length && inflateUnknown == g.inflateUnknown
      modifies master.costmap
      ensures master.costmap[..] ==
        if g.base.Has(mx, my)
        then old(master.costmap[..])[index := g.WriteRule(old(master.costmap[index]), cost)]
        else old(master.costmap[..])
    {
      var oldCost := master.costmap[index];
      if mx >= g.base.x0 && my >= g.base.y0 && mx < g.base.x1 && my < g.base.y1 {
        if oldCost == NO_INFORMATION
           && (if inflateUnknown then cost > FREE_SPACE else cost >= INSCRIBED_INFLATED_OBSTACLE)
        {
          master.costmap[index] := cost;
        } else {
          master.costmap[index] := Max(oldCost, cost);
        }
      }
    }

    /** The body of the inner loop of `updateCosts`: one queued cell. */
    method VisitCell(master: Costmap2D, cell: CellData, g: Setting, ghost was: seq<Byte>, ghost lab: Labels,
                     ghost level: nat, ghost next: nat)
      returns (ghost lab': Labels)
      requires |was| == g.width * g.height && Running(g, master, was, lab, level, next)
      requires level < |inflationCells| && next < |inflationCells[level]| && inflationCells[level][next] == cell
      modifies this`inflationCells, seen, master.costmap
      ensures Running(g, master, was, lab', level, next + 1)
      ensures |inflationCells| == |old(inflationCells)| && inflationCells[level] == old(inflationCells[level])
    {
      hide Model.Sound, Rank, DistanceTable, CostTable, LevelTable, D2, Area, Inv, At, Index, SeenMatches, Grown,
           Setting.Wrote, Setting.Sources, Setting.Queue, Model.CostFrom, Reaches, Rooted, Setting.WriteRule, Around,
           Reached, OfferAround;
      ghost var f := g.Problem(was);
      ghost var bins := inflationCells;
      var mx, my, sx, sy := cell.at.x, cell.at.y, cell.src.x, cell.src.y;
      InvParts(f, lab, bins, level, next);
      PoppedOk(f, lab, bins, level, next);
      var index := master.GetIndex(mx, my);
      SeenAt(seen[..], f, lab, cell.at);
      if seen[index] {
        SkipKeepsInv(f, lab, bins, level, next);
        ReachedSkip(f, g.Queue(was), lab, bins, level, next);
        return lab;
      }
      lab' := lab[cell.at := cell.src];
      ghost var seen0 := seen[..];
      seen[index] := true;
      assert seen[..] == seen0[index := true];
      SeenUpdate(seen0, f, lab, cell.at, cell.src);
      CacheReaches(f, cellInflationRadius, cell.at, cell.src);
      var cost := CostLookup(mx, my, sx, sy);
      WroteUpdate(g, was, master.costmap[..], lab, cell.at, cell.src, cost);
      WriteCost(master, index, mx, my, cost, g);
      OfferNeighbours(index, mx, my, sx, sy, master.sizeX, master.sizeY, f, lab');
      AroundIsAdjacent(cell.at);
      ClaimKeepsInv(f, lab, bins, inflationCells, level, next, Around(cell.at));
      ReachedClaim(f, g.Queue(was), lab, bins, level, next);
    }

    /** Queue every obstacle of the widened window at distance zero. */
    method CollectSources(master: Costmap2D, minI: int, minJ: int, maxI: int, maxJ: int, ghost g: Setting)
      requires master.Valid() && master.sizeX == g.width && master.sizeY == g.height
      requires g.inflateAroundUnknown == inflateAroundUnknown
      requires g.Search() == Window(minI, minJ, maxI, maxJ)
      requires |inflationCells| > 0 && inflationCells[0] == []
      modifies this`inflationCells
      ensures |inflationCells| == |old(inflationCells)|
      ensures forall b :: 0 < b < |inflationCells| ==> inflationCells[b] == old(inflationCells)[b]
      ensures forall e :: e in inflationCells[0] <==> e.at == e.src && e.at in g.Sources(master.costmap[..])
      ensures inflationCells[0] == g.Seeds(master.costmap[..], maxJ)
    {
      hide Index, At, Setting.Sources, Setting.SourceAt, Setting.Seeds, Setting.RowSeeds;
      ghost var data, bins := master.costmap[..], inflationCells;
      g.NoSeeds(data, minI, minJ);
      var j := minJ;
      while j < maxJ
        invariant minJ <= j && (j <= maxJ || j == minJ)
        invariant inflationCells == bins[0 := g.Seeds(data, j)]
        decreases maxJ - j
      {
        var i := minI;
        g.NoRowSeeds(data, j, minI);
        Regroup(g.Seeds(data, j), [], []);
        while i < maxI
          invariant minI <= i && (i <= maxI || i == minI)
          invariant inflationCells == bins[0 := g.Seeds(data, j) + g.RowSeeds(data, j, i)]
          decreases maxI - i
        {
          SearchInMap(g, data, i, j);
          AtIndex(data, g.width, g.height, i, j);
          var index := master.GetIndex(i, j);
          var cost := master.costmap[index];
          g.OneMoreSeed(data, j, i);
          Regroup(g.Seeds(data, j), g.RowSeeds(data, j, i), [CellData(Cell(i, j), Cell(i, j))]);
          Regroup(g.RowSeeds(data, j, i), [], []);
          if cost == LETHAL_OBSTACLE || (inflateAroundUnknown && cost == NO_INFORMATION) {
            inflationCells := inflationCells[0 := inflationCells[0] + [CellData(Cell(i, j), Cell(i, j))]];
          }
          i := i + 1;
        }
        g.NoRowSeeds(data, j, maxI);
        g.OneMoreRow(data, j);
        j := j + 1;
      }
      g.NoSeeds(data, maxI, maxJ);
      forall e: CellData ensures e in g.Seeds(data, maxJ) <==> e.at == e.src && e.at in g.Sources(data) {
        g.SeedsAre(data, maxJ, e);
        SourceAtCell(g, data, e.at);
      }
    }

    /** Size `seen_` for the map and clear it. */
    method ClearSeen(cells: nat)
      modifies this`seen, seen
      ensures seen.Length == cells && (seen == old(seen) || fresh(seen))
      ensures forall k :: 0 <= k < seen.Length ==> !seen[k]
    {
      if seen.Length != cells {
        seen := new bool[cells];
      }
      var a := seen;
      for k := 0 to a.Length
        invariant seen == a
        invariant forall k' :: 0 <= k' < k ==> !a[k']
      {
        a[k] := false;
      }
    }

    /** The start of `updateCosts`: nothing seen, the obstacles queued. */
    method Begin(master: Costmap2D, g: Setting)
      requires Valid() && master.Valid() && master.costmap != cachedCosts && cellInflationRadius > 0
      requires g.model == model && g.radius == cellInflationRadius
      requires g.inflateUnknown == inflateUnknown && g.inflateAroundUnknown == inflateAroundUnknown
      requires master.sizeX == g.width && master.sizeY == g.height
      modifies this`inflationCells, this`seen, seen
      ensures seen == old(seen) || fresh(seen)
      ensures Running(g, master, master.costmap[..], map[], 0, 0)
    {
      hide Model.Sound, Rank, DistanceTable, CostTable, LevelTable, At, Index, Inv, SeenMatches,
           Setting.Wrote, Setting.Sources, Setting.Seeds, Settled, Reached;
      ghost var was := master.costmap[..];
      ClearSeen(g.width * g.height);
      NothingSeen(seen[..], g.Problem(was));
      NothingWritten(g, was);
      var w := g.base;
      CollectSources(master, Max(0, w.x0 - g.radius), Max(0, w.y0 - g.radius),
                     Min(g.width, w.x1 + g.radius), Min(g.height, w.y1 + g.radius), g);
      SourcesInMap(g, was);
      StartInv(g.Problem(was), inflationCells);
      assert inflationCells == g.Queue(was);
      ReachedStart(g.Problem(was), g.Queue(was));
    }

    /** `updateCosts`. */
    method UpdateCosts(master: Costmap2D, minI: int, minJ: int, maxI: int, maxJ: int) returns (ghost lab: Labels)
      requires Valid() && master.Valid() && master.costmap != cachedCosts
      modifies this, seen, master.costmap
      ensures Valid() && master.Valid()
      ensures !enabled || cellInflationRadius == 0 ==> master.costmap[..] == old(master.costmap[..])
      ensures enabled && cellInflationRadius > 0 ==>
        Setting(master.sizeX, master.sizeY, cellInflationRadius, Window(minI, minJ, maxI, maxJ),
                inflateUnknown, inflateAroundUnknown, model)
          .Inflated(old(master.costmap[..]), master.costmap[..], lab)
      ensures enabled && cellInflationRadius > 0 ==>
        Setting(master.sizeX, master.sizeY, cellInflationRadius, Window(minI, minJ, maxI, maxJ),
                inflateUnknown, inflateAroundUnknown, model)
          .Ran(old(master.costmap[..]), lab)
      ensures enabled == old(enabled) && cellInflationRadius == old(cellInflationRadius) && model == old(model)
      ensures inflateUnknown == old(inflateUnknown) && inflateAroundUnknown == old(inflateAroundUnknown)
    {
      hide Model.Sound, Rank, DistanceTable, CostTable, LevelTable, Area, At, Index, Inv, SeenMatches,
           Setting.Wrote, Setting.Sources, Setting.Queue, Settled, Reached;
      lab := map[];
      if !enabled || cellInflationRadius == 0 {
        return;
      }
      var g := Setting(master.sizeX, master.sizeY, cellInflationRadius, Window(minI, minJ, maxI, maxJ),
                       inflateUnknown, inflateAroundUnknown, model);
      ghost var was := master.costmap[..];
      ghost var f := g.Problem(was);
      Begin(master, g);
      var level := 0;
      while level < |inflationCells|
        invariant level <= |inflationCells| && Running(g, master, was, lab, level, 0)
        invariant seen == old(seen) || fresh(seen)
        invariant enabled == old(enabled) && cellInflationRadius == old(cellInflationRadius) && model == old(model)
        invariant inflateUnknown == old(inflateUnknown) && inflateAroundUnknown == old(inflateAroundUnknown)
      {
        lab := DrainBin(master, g, was, lab, level);
        NextBinKeepsInv(f, lab, inflationCells, level);
        ReachedBin(f, g.Queue(was), lab, inflationCells, level);
        inflationCells := inflationCells[level := []];
        level := level + 1;
      }
      DrainedIsSettled(f, lab, inflationCells);
    }

    /** The inner loop of `updateCosts`, over one bin. */
    method DrainBin(master: Costmap2D, g: Setting, ghost was: seq<Byte>, ghost lab0: Labels, level: nat)
      returns (ghost lab: Labels)
      requires |was| == g.width * g.height && Running(g, master, was, lab0, level, 0)
      requires level < |inflationCells|
      modifies this`inflationCells, seen, master.costmap
      ensures |inflationCells| == |old(inflationCells)|
      ensures Running(g, master, was, lab, level, |inflationCells[level]|)
    {
      hide *;
      lab := lab0;
      var i := 0;
      while i < |inflationCells[level]|
        invariant |inflationCells| == |old(inflationCells)| && inflationCells[level] == old(inflationCells[level])
        invariant i <= |inflationCells[level]|
        invariant Running(g, master, was, lab, level, i)
      {
        lab := VisitCell(master, inflationCells[level][i], g, was, lab, level, i);
        i := i + 1;
      }
    }
  }

  lemma AtIndex<T>(data: seq<T>, width: int, height: int, x: int, y: int)
    requires InMap(width, height, x, y) && |data| == width * height
    ensures 0 <= Index(width, x, y) < |data|
    ensures At(data, width, height, x, y) == data[Index(width, x, y)]
  {
    IndexInRange(width, height, x, y);
  }

  lemma HypotCost(model: Model, i: int, j: int)
    requires model.Sound()
    ensures 0 <= model.ComputeCost(model.hypot(i, j)) < 255
  {
    model.CostFalls(model.hypot(i, j), model.hypot(i, j));
  }

  /** Within the radius, the level table and the bins are indexed in range. */
  lemma TableEntry(matrix: array2<nat>, n: nat, radius: nat, c: Cell, s: Cell)
    requires LevelTable(matrix, n) && n == radius + 2
    requires D2(c, s) <= Area(radius)
    ensures Abs(c.x - s.x) <= radius && Abs(c.y - s.y) <= radius
    ensures var r: int := n;
      && -r <= c.x - s.x <= r && -r <= c.y - s.y <= r
      && matrix[c.x - s.x + r, c.y - s.y + r] == Rank(D2(c, s)) <= Rank(Area(n))
  {
    hide Norm2, Rank;
    var o := Offset(c.x - s.x, c.y - s.y);
    SquareOrder(radius, n);
    DiscInSquare(o, radius);
    DiscInSquare(o, n);
    RankMonotone(Norm2(o), n * n);
  }

  /** `seen_` marks exactly the labelled cells. */
  ghost predicate SeenMatches(seen: seq<bool>, f: Task, lab: Labels) {
    && |seen| == f.width * f.height
    && forall x, y :: InMap(f.width, f.height, x, y) ==> (At(seen, f.width, f.height, x, y) <==> Cell(x, y) in lab)
  }

  function Around(m: Cell): set<Cell> {
    {Cell(m.x - 1, m.y), Cell(m.x, m.y - 1), Cell(m.x + 1, m.y), Cell(m.x, m.y + 1)}
  }

  lemma NeighbourIndices(width: int, x: int, y: int)
    ensures Index(width, x - 1, y) == Index(width, x, y) - 1
    ensures Index(width, x + 1, y) == Index(width, x, y) + 1
    ensures Index(width, x, y - 1) == Index(width, x, y) - width
    ensures Index(width, x, y + 1) == Index(width, x, y) + width
  {
  }

  lemma CacheReaches(f: Task, radius: nat, m: Cell, s: Cell)
    requires Reaches(f, m, s) && f.reach == Area(radius)
    ensures Abs(m.x - s.x) <= radius && Abs(m.y - s.y) <= radius
  {
    hide Norm2;
    DiscInSquare(Offset(m.x - s.x, m.y - s.y), radius);
  }

  lemma BinsSized(f: Task, bins: Bins, radius: nat)
    requires f.reach == Area(radius) && |bins| == Rank(Area(radius + 2)) + 1
    ensures Sized(f, bins)
  {
    hide D2, Rank;
    SquareOrder(radius, radius + 2);
    forall c, s | Reaches(f, c, s) ensures Rank(D2(c, s)) < |bins| {
      RankMonotone(D2(c, s), Area(radius + 2));
    }
  }

  lemma GrownStart(f: Task, lab: Labels, bins: Bins, m: Cell, s: Cell)
    ensures Grown(f, lab, bins, bins, m, s, {})
  {
  }

  lemma AroundIsAdjacent(m: Cell)
    ensures forall n :: Adjacent(m, n) ==> n in Around(m)
  {
  }

  lemma SeenAt(seen: seq<bool>, f: Task, lab: Labels, c: Cell)
    requires SeenMatches(seen, f, lab) && InGrid(f, c)
    ensures 0 <= Index(f.width, c.x, c.y) < |seen|
    ensures seen[Index(f.width, c.x, c.y)] <==> c in lab
  {
    hide Index;
    AtIndex(seen, f.width, f.height, c.x, c.y);
  }

  lemma SeenUpdate(seen: seq<bool>, f: Task, lab: Labels, c: Cell, s: Cell)
    requires SeenMatches(seen, f, lab) && InGrid(f, c)
    ensures 0 <= Index(f.width, c.x, c.y) < |seen|
    ensures SeenMatches(seen[Index(f.width, c.x, c.y) := true], f, lab[c := s])
  {
    hide Index, At;
    AtUpdate(seen, f.width, f.height, c.x, c.y, true);
  }

  lemma WroteUpdate(g: Setting, was: seq<Byte>, now: seq<Byte>, lab: Labels, c: Cell, s: Cell, cost: Byte)
    requires g.Wrote(was, now, lab) && InMap(g.width, g.height, c.x, c.y) && c !in lab
    requires cost == g.model.CostFrom(c, s)
    ensures 0 <= Index(g.width, c.x, c.y) < |now|
    ensures var i := Index(g.width, c.x, c.y);
      0 <= g.WriteRule(now[i], cost) < 256
      && g.Wrote(was, if g.base.Has(c.x, c.y) then now[i := g.WriteRule(now[i], cost)] else now, lab[c := s])
  {
    hide Index, At, Model.CostFrom;
    AtIndex(now, g.width, g.height, c.x, c.y);
    var i := Index(g.width, c.x, c.y);
    var v: Byte := g.WriteRule(now[i], cost);
    AtUpdate(now, g.width, g.height, c.x, c.y, v);
    if g.base.Has(c.x, c.y) {
      forall x, y | InMap(g.width, g.height, x, y)
        ensures At(now[i := v], g.width, g.height, x, y)
          == g.Written(At(was, g.width, g.height, x, y), lab[c := s], Cell(x, y))
      {
      }
    }
  }

  lemma SourceAtCell(g: Setting, data: seq<Byte>, c: Cell)
    ensures c in g.Sources(data) <==> g.Search().Has(c.x, c.y) && g.SourceAt(data, c)
  {
    if g.Search().Has(c.x, c.y) && g.SourceAt(data, c) {
      assert Cell(c.x, c.y) == c;
    }
  }

  lemma SearchInMap(g: Setting, data: seq<Byte>, x: int, y: int)
    requires g.Search().Has(x, y)
    ensures InMap(g.width, g.height, x, y)
  {
  }

  lemma SourcesInMap(g: Setting, data: seq<Byte>)
    ensures forall c :: c in g.Sources(data) ==> InMap(g.width, g.height, c.x, c.y)
  {
  }

  lemma NothingSeen(seen: seq<bool>, f: Task)
    requires |seen| == f.width * f.height && forall k :: 0 <= k < |seen| ==> !seen[k]
    ensures SeenMatches(seen, f, map[])
  {
    hide Index;
    forall x, y | InMap(f.width, f.height, x, y) ensures !At(seen, f.width, f.height, x, y) {
      AtIndex(seen, f.width, f.height, x, y);
    }
  }

  lemma NothingWritten(g: Setting, was: seq<Byte>)
    requires |was| == g.width * g.height
    ensures g.Wrote(was, was, map[])
  {
    hide At;
  }
}

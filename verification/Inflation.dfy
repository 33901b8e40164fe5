/** What an inflation does to the master costmap, and what follows from it. */
module Inflation {
  import opened Prelude
  import opened GridIndex
  import opened RankTable
  import opened Brushfire
  import opened BrushfireRun
  import opened CostModel

  /** Everything one call of `updateCosts` depends on besides the costmap. */
  datatype Setting = Setting(
    width: nat, height: nat, radius: nat, base: Window,
    inflateUnknown: bool, inflateAroundUnknown: bool, model: Model)
  {
    predicate IsSource(cost: Byte) {
      cost == LETHAL_OBSTACLE || (inflateAroundUnknown && cost == NO_INFORMATION)
    }

    function Search(): Window { base.Around(radius, width, height) }

    predicate SourceAt(data: seq<Byte>, c: Cell) {
      InMap(width, height, c.x, c.y) && |data| == width * height
      && IsSource(At(data, width, height, c.x, c.y))
    }

    /** The obstacles found in the widened window. */
    function Sources(data: seq<Byte>): set<Cell> {
      set x: int, y: int | 0 <= x < width && 0 <= y < height
          && Search().Has(x, y) && SourceAt(data, Cell(x, y)) :: Cell(x, y)
    }

    function Problem(data: seq<Byte>): Task { Task(width, height, radius * radius, Sources(data)) }

    /** What a cell of cost `was` becomes when it is given `cost`. */
    function WriteRule(was: Byte, cost: int): int {
      if was == NO_INFORMATION
         && (if inflateUnknown then cost > FREE_SPACE else cost >= INSCRIBED_INFLATED_OBSTACLE)
      then cost else Max(was, cost)
    }

    function Written(was: Byte, lab: Labels, c: Cell): int {
      if c in lab && base.Has(c.x, c.y) then WriteRule(was, model.CostFrom(c, lab[c])) else was
    }

    /** `now` is `was` with every labelled cell of the window written. */
    ghost predicate Wrote(was: seq<Byte>, now: seq<Byte>, lab: Labels) {
      && |was| == |now| == width * height
      && forall x, y :: InMap(width, height, x, y) ==>
           At(now, width, height, x, y) == Written(At(was, width, height, x, y), lab, Cell(x, y))
    }

    /** The whole effect of `updateCosts` on the master costmap. */
    ghost predicate Inflated(was: seq<Byte>, now: seq<Byte>, lab: Labels) {
      Settled(Problem(was), lab) && Wrote(was, now, lab)
    }

    predicate Within(c: Cell, s: Cell) { D2(c, s) <= radius * radius }

    /** The obstacles of row `y` of the widened window left of `i`, queued for themselves. */
    function RowSeeds(data: seq<Byte>, y: int, i: int): seq<CellData>
      decreases i - Search().x0
    {
      if i <= Search().x0 then []
      else
        var c := Cell(i - 1, y);
        RowSeeds(data, y, i - 1) + (if SourceAt(data, c) then [CellData(c, c)] else [])
    }

    /** The obstacles of the rows before `j`, row by row. */
    function Seeds(data: seq<Byte>, j: int): seq<CellData>
      decreases j - Search().y0
    {
      if j <= Search().y0 then [] else Seeds(data, j - 1) + RowSeeds(data, j - 1, Search().x1)
    }

    lemma NoRowSeeds(data: seq<Byte>, y: int, i: int)
      ensures i <= Search().x0 ==> RowSeeds(data, y, i) == []
    {
    }

    lemma NoSeeds(data: seq<Byte>, i: int, j: int)
      ensures j <= Search().y0 ==> Seeds(data, j) == []
    {
    }

    lemma OneMoreSeed(data: seq<Byte>, y: int, i: int)
      requires |data| == width * height && InMap(width, height, i, y) && i >= Search().x0
      ensures RowSeeds(data, y, i + 1) == RowSeeds(data, y, i)
        + (if IsSource(At(data, width, height, i, y)) then [CellData(Cell(i, y), Cell(i, y))] else [])
    {
      hide At, IsSource;
    }

    lemma OneMoreRow(data: seq<Byte>, j: int)
      requires j >= Search().y0
      ensures Seeds(data, j + 1) == Seeds(data, j) + RowSeeds(data, j, Search().x1)
    {
      hide RowSeeds;
    }

    /** The seeds of a row are its obstacles. */
    lemma {:induction false} RowSeedsAre(data: seq<Byte>, y: int, i: int, e: CellData)
      ensures e in RowSeeds(data, y, i)
        <==> e.at == e.src && e.at.y == y && Search().x0 <= e.at.x < i && SourceAt(data, e.at)
      decreases i - Search().x0
    {
      hide SourceAt, Search;
      if i > Search().x0 {
        RowSeedsAre(data, y, i - 1, e);
      }
    }

    /** The seeds are the obstacles of the widened window. */
    lemma {:induction false} SeedsAre(data: seq<Byte>, j: int, e: CellData)
      ensures e in Seeds(data, j)
        <==> e.at == e.src && Search().y0 <= e.at.y < j && Search().x0 <= e.at.x < Search().x1 && SourceAt(data, e.at)
      decreases j - Search().y0
    {
      hide SourceAt, Search, RowSeeds;
      if j > Search().y0 {
        SeedsAre(data, j - 1, e);
        RowSeedsAre(data, j - 1, Search().x1, e);
      }
    }

    /** The bins as the run starts: the obstacles in scanning order. */
    ghost function Queue(data: seq<Byte>): (bins: Bins)
      ensures |bins| == Rank((radius + 2) * (radius + 2)) + 1
    {
      seq(Rank((radius + 2) * (radius + 2)) + 1, b => if b == 0 then Seeds(data, Search().y1) else [])
    }

    /** The labels are those the run over the obstacles ends with. */
    ghost predicate Ran(was: seq<Byte>, lab: Labels) {
      exists bins :: Reached(Problem(was), Queue(was), RunState(lab, bins, |bins|, 0))
    }

    // ----- what follows from Inflated --------------------------------------

    /** The widened window misses no obstacle that could matter: whatever lies
        within the radius of a cell of the window is among the sources. */
    lemma WindowSeesAll(data: seq<Byte>, c: Cell, o: Cell)
      requires base.Has(c.x, c.y) && SourceAt(data, o) && Within(c, o)
      ensures o in Sources(data)
    {
      hide Norm2;
      DiscInSquare(Offset(c.x - o.x, c.y - o.y), radius);
      assert Cell(o.x, o.y) == o;
    }

    lemma SourceIsObstacle(data: seq<Byte>, s: Cell)
      ensures s in Sources(data) ==> SourceAt(data, s)
    {
    }

    /** The simple answer for the cost due from one obstacle: a known cell gets the
        greater of its cost and that; an unknown one gets it if it is inscribed at
        least, or, when unknown cells are inflated, if it is not free. */
    function Answer(was: Byte, cost: int): int {
      if was != NO_INFORMATION then (if cost > was then cost else was)
      else if cost >= INSCRIBED_INFLATED_OBSTACLE || (inflateUnknown && cost > FREE_SPACE) then cost
      else NO_INFORMATION
    }

    function BruteForce(was: Byte, s: Cell, c: Cell): int {
      if base.Has(c.x, c.y) && Within(c, s) then Answer(was, model.CostFrom(c, s)) else was
    }

    /** What the code writes is that, whenever it is a cost at all. */
    lemma WrittenIsAnswer(was: Byte, cost: int)
      requires 0 <= WriteRule(was, cost) < 256
      ensures WriteRule(was, cost) == Answer(was, cost)
    {
    }

    lemma LabelledIsAnswer(was: seq<Byte>, now: seq<Byte>, lab: Labels, c: Cell)
      requires Inflated(was, now, lab) && InMap(width, height, c.x, c.y)
      ensures c in lab && base.Has(c.x, c.y) ==>
        At(now, width, height, c.x, c.y) == Answer(At(was, width, height, c.x, c.y), model.CostFrom(c, lab[c]))
    {
      hide At, Settled, WriteRule, Answer, Model.CostFrom;
      assert Cell(c.x, c.y) == c;
      if c in lab && base.Has(c.x, c.y) {
        WrittenIsAnswer(At(was, width, height, c.x, c.y), model.CostFrom(c, lab[c]));
      }
    }

    /** What happens to a cell that was unknown. */
    lemma UnknownCells(was: seq<Byte>, now: seq<Byte>, lab: Labels, c: Cell)
      requires model.Sound() && Inflated(was, now, lab)
      requires InMap(width, height, c.x, c.y) && At(was, width, height, c.x, c.y) == 255
      ensures var b := At(now, width, height, c.x, c.y);
        && (b != 255 ==> c in lab && base.Has(c.x, c.y) && b == model.CostFrom(c, lab[c]))
        && (!inflateUnknown ==> b >= 253)
        && (!inflateUnknown ==>
              (b != 255 <==> c in lab && base.Has(c.x, c.y) && model.CostFrom(c, lab[c]) >= 253))
        && (inflateUnknown ==>
              (b != 255 <==> c in lab && base.Has(c.x, c.y) && model.CostFrom(c, lab[c]) > 0))
    {
      hide D2, Model.CostFrom, Model.Sound, Settled, At;
      assert Cell(c.x, c.y) == c;
      if c in lab { LethalOnlyAtSource(c, lab[c]); }
    }

    /** What happens to a cell that was known. */
    lemma KnownCells(was: seq<Byte>, now: seq<Byte>, lab: Labels, c: Cell)
      requires Inflated(was, now, lab)
      requires InMap(width, height, c.x, c.y) && At(was, width, height, c.x, c.y) != 255
      ensures var a, b := At(was, width, height, c.x, c.y), At(now, width, height, c.x, c.y);
        if c in lab && base.Has(c.x, c.y) && model.CostFrom(c, lab[c]) > a then b == model.CostFrom(c, lab[c])
        else b == a
    {
      hide D2, Model.CostFrom, Settled, At;
      assert Cell(c.x, c.y) == c;
    }

    /** Where inflation starts: the lethal cells of the widened window, and its
        unknown ones if they count as obstacles. */
    lemma SourcesInPlainTerms(data: seq<Byte>, c: Cell)
      requires |data| == width * height
      ensures c in Sources(data) <==>
        && InMap(width, height, c.x, c.y) && Search().Has(c.x, c.y)
        && (At(data, width, height, c.x, c.y) == 254
            || (inflateAroundUnknown && At(data, width, height, c.x, c.y) == 255))
    {
      hide At;
      assert Cell(c.x, c.y) == c;
    }

    /** One obstacle: the brushfire computes exactly the brute-force answer.
        Each cell of the window within the radius gets the answer for its own
        distance, and no other cell changes. */
    lemma OneObstacleExact(was: seq<Byte>, now: seq<Byte>, lab: Labels, s: Cell, c: Cell)
      requires Inflated(was, now, lab) && Sources(was) == {s}
      requires InMap(width, height, c.x, c.y)
      ensures At(now, width, height, c.x, c.y) == BruteForce(At(was, width, height, c.x, c.y), s, c)
    {
      hide D2, At, Settled, WriteRule, Answer, Model.CostFrom, Sources;
      OneSourceExact(Problem(was), lab, s);
      LabelledIsAnswer(was, now, lab, c);
      assert Cell(c.x, c.y) == c;
    }

    /** Many obstacles: the answer is exact along every path of approach that
        stays where the nearest obstacle is the only nearest one. */
    lemma ManyObstaclesExact(was: seq<Byte>, now: seq<Byte>, lab: Labels, s: Cell, c: Cell)
      requires Inflated(was, now, lab) && InMap(width, height, c.x, c.y) && base.Has(c.x, c.y)
      requires OwnPath(Problem(was), c, s) && Within(c, s)
      ensures At(now, width, height, c.x, c.y) == Answer(At(was, width, height, c.x, c.y), model.CostFrom(c, s))
    {
      hide D2, At, Settled, WriteRule, Answer, Model.CostFrom, Sources, OwnPath;
      ExactOnOwnPath(Problem(was), lab, c, s);
      LabelledIsAnswer(was, now, lab, c);
      assert Cell(c.x, c.y) == c;
    }

    /** Many obstacles, ties or not: the cost is the one due at the least distance
        wherever a nearest obstacle is reached by a safe way. */
    lemma ManyObstaclesNearest(was: seq<Byte>, now: seq<Byte>, lab: Labels, s: Cell, c: Cell)
      requires model.Sound() && Inflated(was, now, lab) && InMap(width, height, c.x, c.y) && base.Has(c.x, c.y)
      requires SafeWay(Problem(was), c, s) && Within(c, s)
      ensures At(now, width, height, c.x, c.y) == Answer(At(was, width, height, c.x, c.y), model.CostFrom(c, s))
    {
      hide D2, At, Settled, WriteRule, Answer, Model.CostFrom, Model.Sound, Sources, SafeWay;
      ExactOnSafeWay(Problem(was), lab, c, s);
      LabelledIsAnswer(was, now, lab, c);
      assert Cell(c.x, c.y) == c;
      assert Nearest(Problem(was), c, s) by { SafeStart(Problem(was), c, s); }
      model.NearerCostsMore(c, s, lab[c]);
      model.NearerCostsMore(c, lab[c], s);
    }

    lemma SafeStart(f: Task, c: Cell, s: Cell)
      requires SafeWay(f, c, s)
      ensures Nearest(f, c, s)
    {
      hide Nearest, PassesOn;
    }

    /** Every cell of the window has the cost of the obstacle it is due. */
    ghost predicate BruteForced(was: seq<Byte>, now: seq<Byte>)
      requires |was| == |now| == width * height
    {
      forall c: Cell, s: Cell :: base.Has(c.x, c.y) && Due(Problem(was), c, s) ==>
        At(now, width, height, c.x, c.y) == Answer(At(was, width, height, c.x, c.y), model.CostFrom(c, s))
    }

    /** Within the radius every distance has a cost of its own, none of them free. */
    ghost predicate TellsApart() {
      && (forall c, s :: Within(c, s) ==> model.CostFrom(c, s) > FREE_SPACE)
      && (forall c, s, t :: D2(c, s) < D2(c, t) && Within(c, t) ==> model.CostFrom(c, t) < model.CostFrom(c, s))
    }

    /** The window is the map, and everything but the obstacles is free. */
    ghost predicate Blank(was: seq<Byte>)
      requires |was| == width * height
    {
      forall c :: InGrid(Problem(was), c) ==>
        base.Has(c.x, c.y) && (SourceAt(was, c) || At(was, width, height, c.x, c.y) == FREE_SPACE)
    }

    /** Many obstacles without ties: the costs are the brute-force ones whenever
        the regions are connected, and, where the cost tells distances apart
        and nothing else hides it, only then. */
    lemma ManyObstaclesExactIff(was: seq<Byte>, now: seq<Byte>, lab: Labels)
      requires Inflated(was, now, lab) && NoTies(Problem(was))
      ensures Connected(Problem(was)) ==> BruteForced(was, now)
      ensures Blank(was) && TellsApart() ==> (BruteForced(was, now) <==> Connected(Problem(was)))
    {
      hide D2, At, Settled, WriteRule, Answer, Model.CostFrom, Sources, Connected, NoTies, TellsApart, Blank;
      hide OnlyNearest;
      ExactIffConnected(Problem(was), lab);
      if Exact(Problem(was), lab) {
        forall c: Cell, s: Cell | base.Has(c.x, c.y) && Due(Problem(was), c, s)
          ensures At(now, width, height, c.x, c.y) == Answer(At(was, width, height, c.x, c.y), model.CostFrom(c, s))
        {
          assert Cell(c.x, c.y) == c;
          LabelledIsAnswer(was, now, lab, c);
        }
      }
      if Blank(was) && TellsApart() && BruteForced(was, now) {
        forall c, s | Due(Problem(was), c, s) ensures c in lab && lab[c] == s {
          RightCostRightObstacle(was, now, lab, c, s);
        }
      }
    }

    lemma RightCostRightObstacle(was: seq<Byte>, now: seq<Byte>, lab: Labels, c: Cell, s: Cell)
      requires Inflated(was, now, lab) && Blank(was) && TellsApart() && BruteForced(was, now)
      requires Due(Problem(was), c, s)
      ensures c in lab && lab[c] == s
    {
      hide D2, At, Model.CostFrom, Sources, Rooted;
      assert Cell(c.x, c.y) == c && base.Has(c.x, c.y) && Within(c, s);
      if SourceAt(was, c) {
        SourceKeepsLabel(was, lab, c);
        WindowSeesAll(was, c, c) by { ZeroDistance(c, c); }
        ZeroDistance(c, c);
      } else if c in lab {
        assert LabelOk(Problem(was), lab, c, lab[c]);
      }
    }

    /** Many obstacles: a cell changes only inside the window, only to the
        value due to a real obstacle within the radius, and never to more than
        its nearest obstacle is due; known costs never drop. */
    lemma InflationSound(was: seq<Byte>, now: seq<Byte>, lab: Labels, c: Cell)
      requires model.Sound() && Inflated(was, now, lab) && InMap(width, height, c.x, c.y)
      ensures var a, b := At(was, width, height, c.x, c.y), At(now, width, height, c.x, c.y);
        && (a != NO_INFORMATION ==> b >= a)
        && (b != a ==>
              && base.Has(c.x, c.y) && c in lab && SourceAt(was, lab[c]) && Within(c, lab[c])
              && b == Answer(a, model.CostFrom(c, lab[c]))
              && forall o :: SourceAt(was, o) && D2(c, o) <= D2(c, lab[c]) ==> b <= model.CostFrom(c, o))
    {
      hide D2, At, Model.CostFrom, Model.Sound, Rooted, Sources;
      assert Cell(c.x, c.y) == c;
      if c in lab {
        assert LabelOk(Problem(was), lab, c, lab[c]);
        SourceIsObstacle(was, lab[c]);
        forall o | D2(c, o) <= D2(c, lab[c]) ensures 0 <= model.CostFrom(c, lab[c]) <= model.CostFrom(c, o) {
          model.NearerCostsMore(c, o, lab[c]);
        }
      }
    }

    /** Only a cell's own obstacle makes it lethal. */
    lemma LethalOnlyAtSource(c: Cell, s: Cell)
      requires model.Sound()
      ensures 0 <= model.CostFrom(c, s) <= LETHAL_OBSTACLE
      ensures model.CostFrom(c, s) == LETHAL_OBSTACLE <==> c == s
    {
      hide D2, Norm2, Rank, Abs, Model.Sound, Model.ComputeCost;
      ZeroDistance(c, s);
      model.ZeroHypot(c, s);
      var h := model.hypot(Abs(c.x - s.x), Abs(c.y - s.y));
      model.CostFalls(h, h);
    }

    /** Inflation makes no obstacle and loses none. */
    lemma ObstaclesPreserved(was: seq<Byte>, now: seq<Byte>, lab: Labels, c: Cell)
      requires model.Sound() && Inflated(was, now, lab)
      ensures SourceAt(was, c) <==> SourceAt(now, c)
    {
      hide D2, At, Model.CostFrom, Model.Sound, Rooted, Sources, Index, Settled;
      if InMap(width, height, c.x, c.y) {
        assert Cell(c.x, c.y) == c;
        if c in lab && base.Has(c.x, c.y) {
          LabelIsSource(was, lab, c);
          if SourceAt(was, c) { SourceKeepsLabel(was, lab, c); }
          LethalOnlyAtSource(c, lab[c]);
        }
      }
    }

    lemma LabelIsSource(was: seq<Byte>, lab: Labels, c: Cell)
      requires Settled(Problem(was), lab) && c in lab
      ensures SourceAt(was, lab[c])
    {
      hide D2, At, Rooted, Sources;
      assert LabelOk(Problem(was), lab, c, lab[c]);
      SourceIsObstacle(was, lab[c]);
    }

    lemma SourceKeepsLabel(was: seq<Byte>, lab: Labels, c: Cell)
      requires Settled(Problem(was), lab) && base.Has(c.x, c.y) && SourceAt(was, c)
      ensures c in lab && lab[c] == c
    {
      hide At, Rooted, D2, Norm2, Rank, Sources;
      ZeroDistance(c, c);
      WindowSeesAll(was, c, c);
    }

    lemma SourcesPreserved(was: seq<Byte>, now: seq<Byte>, lab: Labels)
      requires model.Sound() && Inflated(was, now, lab)
      ensures Sources(now) == Sources(was)
    {
      hide SourceAt, Inflated, Model.Sound;
      forall o ensures SourceAt(was, o) <==> SourceAt(now, o) {
        ObstaclesPreserved(was, now, lab, o);
      }
    }

    /** One obstacle: inflating again changes nothing, in whatever order the
        cells are visited. */
    lemma OneObstacleIdempotent(was: seq<Byte>, now: seq<Byte>, again: seq<Byte>, lab: Labels, lab': Labels,
                                s: Cell, c: Cell)
      requires model.Sound() && Inflated(was, now, lab) && Inflated(now, again, lab') && Sources(was) == {s}
      requires InMap(width, height, c.x, c.y)
      ensures At(again, width, height, c.x, c.y) == At(now, width, height, c.x, c.y)
    {
      hide D2, At, Model.CostFrom, Model.Sound, Inflated, Sources;
      SourcesPreserved(was, now, lab);
      OneObstacleExact(was, now, lab, s, c);
      OneObstacleExact(now, again, lab', s, c);
      LethalOnlyAtSource(c, s);
    }

    lemma {:induction false} SameRowSeeds(was: seq<Byte>, now: seq<Byte>, y: int, i: int)
      requires forall o :: SourceAt(was, o) <==> SourceAt(now, o)
      ensures RowSeeds(was, y, i) == RowSeeds(now, y, i)
      decreases i - Search().x0
    {
      hide SourceAt;
      if i > Search().x0 {
        SameRowSeeds(was, now, y, i - 1);
      }
    }

    lemma {:induction false} SameSeeds(was: seq<Byte>, now: seq<Byte>, j: int)
      requires forall o :: SourceAt(was, o) <==> SourceAt(now, o)
      ensures Seeds(was, j) == Seeds(now, j)
      decreases j - Search().y0
    {
      hide SourceAt;
      if j > Search().y0 {
        SameSeeds(was, now, j - 1);
        SameRowSeeds(was, now, j - 1, Search().x1);
      }
    }

    /** What is labelled depends only on the obstacles: two inflations of maps
        with the same obstacles label the same cells for the same obstacles. */
    lemma SameObstaclesSameLabels(was: seq<Byte>, now: seq<Byte>, lab: Labels, lab': Labels)
      requires Ran(was, lab) && Ran(now, lab')
      requires forall o :: SourceAt(was, o) <==> SourceAt(now, o)
      ensures lab == lab'
    {
      hide SourceAt, Seeds, Reached, Rank;
      SameSeeds(was, now, Search().y1);
      assert Queue(was) == Queue(now) && Sources(was) == Sources(now);
      var a :| Reached(Problem(was), Queue(was), RunState(lab, a, |a|, 0));
      var b :| Reached(Problem(now), Queue(now), RunState(lab', b, |b|, 0));
      OutcomeUnique(Problem(was), Queue(was), RunState(lab, a, |a|, 0), RunState(lab', b, |b|, 0));
    }

    /** Any number of obstacles: inflating again changes nothing. */
    lemma InflationIdempotent(was: seq<Byte>, now: seq<Byte>, again: seq<Byte>, lab: Labels, lab': Labels, c: Cell)
      requires model.Sound() && Inflated(was, now, lab) && Ran(was, lab) && Inflated(now, again, lab') && Ran(now, lab')
      requires InMap(width, height, c.x, c.y)
      ensures At(again, width, height, c.x, c.y) == At(now, width, height, c.x, c.y)
    {
      hide D2, At, Model.CostFrom, Model.Sound, Sources, Settled, Ran, SourceAt, WriteRule;
      forall o ensures SourceAt(was, o) <==> SourceAt(now, o) {
        ObstaclesPreserved(was, now, lab, o);
      }
      SameObstaclesSameLabels(was, now, lab, lab');
      assert Cell(c.x, c.y) == c;
      if c in lab && base.Has(c.x, c.y) {
        LethalOnlyAtSource(c, lab[c]);
        WriteTwice(At(was, width, height, c.x, c.y), model.CostFrom(c, lab[c]));
      }
    }

    lemma WriteTwice(was: Byte, cost: int)
      requires 0 <= cost <= LETHAL_OBSTACLE
      ensures 0 <= WriteRule(was, cost) < 256
      ensures WriteRule(WriteRule(was, cost), cost) == WriteRule(was, cost)
    {
    }
  }
}

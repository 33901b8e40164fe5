/** Line tracing over map cells (`Costmap2D::raytraceLine`, `bresenham2D`): whole
    lines, and lines cut by the least and the greatest range. */
module Bresenham {
  import opened Prelude
  import opened RealArithmetic
  import opened GridIndex

  datatype MapLocation = MapLocation(x: int, y: int)

  /** `indexToCells`. */
  function IndexToCells(sizeX: nat, index: int): MapLocation
    requires sizeX > 0
  {
    var my := index / sizeX;
    MapLocation(index - my * sizeX, my)
  }

  lemma IndexRoundTrip(sizeX: nat, x: int, y: int)
    requires 0 <= x < sizeX
    ensures IndexToCells(sizeX, Index(sizeX, x, y)) == MapLocation(x, y)
  {
    var q := Index(sizeX, x, y) / sizeX;
    if q < y {
      RowsApart(sizeX, q, y);
    } else if y < q {
      RowsApart(sizeX, y, q);
    }
  }

  /** A step from cell to cell. */
  datatype Step = Step(x: int, y: int) {
    function Offset(sizeX: int): int { x + y * sizeX }
  }

  /** `p` moved `i` times by `a` and `j` times by `b`. */
  function Moved(p: MapLocation, a: Step, i: int, b: Step, j: int): MapLocation {
    MapLocation(p.x + a.x * i + b.x * j, p.y + a.y * i + b.y * j)
  }

  /** The first `n + 1` rounded minor offsets of a line with `da` major and `db`
      minor steps: from 0, by steps of 0 or 1, always within half a cell of the
      exact proportion, and `db` at the end. */
  predicate Rounded(ups: seq<int>, da: nat, db: nat, n: nat) {
    && |ups| == n + 1 && n <= da && ups[0] == 0 && (n == da ==> ups[n] == db)
    && (forall i :: 0 <= i < n ==> ups[i] <= ups[i + 1] <= ups[i] + 1)
    && (forall i :: 0 <= i <= n ==> Close(ups[i], i, da, db))
  }

  /** `up` minor steps are within half a cell of `i` major ones. */
  predicate Close(up: int, i: int, da: nat, db: nat) { 0 <= up <= db && 2 * Abs(da * up - i * db) <= da }

  /** The error term counts what the minor offset still owes. */
  predicate Owes(error: int, up: int, i: int, da: nat, db: nat) {
    error == da / 2 + i * db - da * up && (da > 0 ==> 0 <= error < da)
  }

  /** The same before the end, with the error term the loop keeps. */
  ghost predicate Tracing(ups: seq<int>, da: nat, db: nat, i: nat, error: int) {
    && |ups| == i + 1 && i <= da && ups[0] == 0
    && (forall k :: 0 <= k < i ==> ups[k] <= ups[k + 1] <= ups[k] + 1)
    && (forall k :: 0 <= k <= i ==> Close(ups[k], k, da, db))
    && Owes(error, ups[i], i, da, db)
  }

  lemma TraceStart(da: nat, db: nat)
    ensures Tracing([0], da, db, 0, da / 2)
  {
  }

  /** One turn of the loop. */
  lemma TraceStep(ups: seq<int>, da: nat, db: nat, i: nat, error: int)
    requires Tracing(ups, da, db, i, error) && i < da && db <= da
    ensures var raised := error + db;
      if raised >= da then Tracing(ups + [ups[i] + 1], da, db, i + 1, raised - da)
      else Tracing(ups + [ups[i]], da, db, i + 1, raised)
  {
    NextError(da, db, i, ups[i], error);
    hide Close, Owes;
  }

  lemma TraceEnd(ups: seq<int>, da: nat, db: nat, n: nat, error: int)
    requires Tracing(ups, da, db, n, error) && db <= da
    ensures Rounded(ups, da, db, n)
  {
    if n == da { LastError(da, db, ups[n], error); }
  }

  /** `bresenham2D` with the offset bookkeeping of the code. */
  method Bresenham2D(sizeX: nat, absDa: nat, absDb: nat, offsetA: int, offsetB: int, offset0: int, maxLength: nat,
                     cells0: seq<MapLocation>, ghost p: MapLocation, ghost a: Step, ghost b: Step)
    returns (cells: seq<MapLocation>, ghost ups: seq<int>)
    requires absDb <= absDa && sizeX > 0
    requires offset0 == Index(sizeX, p.x, p.y) && offsetA == a.Offset(sizeX) && offsetB == b.Offset(sizeX)
    requires forall i, j :: 0 <= i <= absDa && 0 <= j <= absDb ==> 0 <= Moved(p, a, i, b, j).x < sizeX
    ensures Rounded(ups, absDa, absDb, Min(maxLength, absDa))
    ensures cells == cells0 + Trace(p, a, b, ups)
  {
    hide Index, Moved, Step.Offset, IndexToCells, Tracing;
    var end := Min(maxLength, absDa);
    var errorB: int := absDa / 2;
    var offset := offset0;
    cells := cells0;
    ups := [0];
    MovedNone(p, a, b);
    TraceStart(absDa, absDb);
    for i := 0 to end
      invariant |ups| == i + 1 && Tracing(ups, absDa, absDb, i, errorB) && 0 <= ups[i] <= absDb
      invariant var m := Moved(p, a, i, b, ups[i]); offset == Index(sizeX, m.x, m.y)
      invariant cells == cells0 + Trace(p, a, b, ups[..i])
    {
      ghost var up, was := ups[i], ups;
      ghost var m := Moved(p, a, i, b, up);
      IndexRoundTrip(sizeX, m.x, m.y);
      TraceGrows(p, a, b, ups, i);
      cells := cells + [IndexToCells(sizeX, offset)];
      MoveMajor(sizeX, p, a, i, b, up);
      MoveMinor(sizeX, p, a, i + 1, b, up);
      TraceStep(ups, absDa, absDb, i, errorB);
      offset := offset + offsetA;
      errorB := errorB + absDb;
      if errorB >= absDa {
        offset := offset + offsetB;
        errorB := errorB - absDa;
        ups := ups + [up + 1];
      } else {
        ups := ups + [up];
      }
      InBounds(ups, absDa, absDb, i + 1, errorB);
      assert ups[..i + 1] == was;
      assert was[..i + 1] == was;
    }
    TraceEnd(ups, absDa, absDb, end, errorB);
    ghost var m := Moved(p, a, end, b, ups[end]);
    IndexRoundTrip(sizeX, m.x, m.y);
    TraceGrows(p, a, b, ups, end);
    cells := cells + [IndexToCells(sizeX, offset)];
    assert ups[..end + 1] == ups;
  }

  lemma InBounds(ups: seq<int>, da: nat, db: nat, i: nat, error: int)
    requires Tracing(ups, da, db, i, error)
    ensures |ups| == i + 1 && 0 <= ups[i] <= db
  {
  }

  /** The cells of a line with the given minor offsets. */
  ghost function Trace(p: MapLocation, a: Step, b: Step, ups: seq<int>): (ray: seq<MapLocation>)
    ensures |ray| == |ups| && forall i :: 0 <= i < |ups| ==> ray[i] == Moved(p, a, i, b, ups[i])
  {
    seq(|ups|, i requires 0 <= i < |ups| => Moved(p, a, i, b, ups[i]))
  }

  lemma TraceGrows(p: MapLocation, a: Step, b: Step, ups: seq<int>, i: nat)
    requires i < |ups|
    ensures Trace(p, a, b, ups[..i + 1]) == Trace(p, a, b, ups[..i]) + [Moved(p, a, i, b, ups[i])]
  {
    hide Moved;
  }

  lemma MovedNone(p: MapLocation, a: Step, b: Step)
    ensures Moved(p, a, 0, b, 0) == p
  {
  }

  lemma MoveMajor(sizeX: nat, p: MapLocation, a: Step, i: int, b: Step, j: int)
    ensures var m := Moved(p, a, i, b, j);
      var n := Moved(p, a, i + 1, b, j);
      Index(sizeX, n.x, n.y) == Index(sizeX, m.x, m.y) + a.Offset(sizeX)
  {
    assert a.x * (i + 1) == a.x * i + a.x && a.y * (i + 1) == a.y * i + a.y;
    RowStep(sizeX, Moved(p, a, i, b, j).y, a.y);
  }

  lemma MoveMinor(sizeX: nat, p: MapLocation, a: Step, i: int, b: Step, j: int)
    ensures var m := Moved(p, a, i, b, j);
      var n := Moved(p, a, i, b, j + 1);
      Index(sizeX, n.x, n.y) == Index(sizeX, m.x, m.y) + b.Offset(sizeX)
  {
    assert b.x * (j + 1) == b.x * j + b.x && b.y * (j + 1) == b.y * j + b.y;
    RowStep(sizeX, Moved(p, a, i, b, j).y, b.y);
  }

  lemma RowStep(sizeX: nat, y: int, dy: int)
    ensures (y + dy) * sizeX == y * sizeX + dy * sizeX
  {
  }

  /** The error term decides which of the two next offsets is close. */
  lemma NextError(da: nat, db: nat, i: nat, up: int, error: int)
    requires db <= da && i < da && Close(up, i, da, db) && Owes(error, up, i, da, db)
    ensures error + db >= da ==> Close(up + 1, i + 1, da, db) && Owes(error + db - da, up + 1, i + 1, da, db)
    ensures error + db < da ==> Close(up, i + 1, da, db) && Owes(error + db, up, i + 1, da, db)
  {
    StepsLeft(da, db, i + 1);
    Distributed(i, db);
    Distributed(up, da);
  }

  lemma Distributed(i: int, k: int)
    ensures (i + 1) * k == i * k + k && k * (i + 1) == k * i + k
  {
  }

  lemma StepsLeft(da: nat, db: nat, i: nat)
    requires i <= da
    ensures i * db <= da * db
  {
    assert (da - i) * db >= 0;
  }

  lemma LastError(da: nat, db: nat, up: int, error: int)
    requires db <= da && 0 <= up <= db
    requires error == da / 2 + da * db - da * up && (da > 0 ==> 0 <= error < da)
    ensures up == db
  {
    if up < db {
      Owed(da, db, up);
    }
  }

  lemma Owed(da: nat, db: int, up: int)
    requires up < db
    ensures da * db - da * up >= da
  {
    assert da * db - da * up == da * (db - up - 1) + da;
    assert da * (db - up - 1) >= 0;
  }

  /** The code's `sign`, which is -1 at zero. */
  function Sign(d: int): int { if d > 0 then 1 else -1 }

  predicate InBox(c: MapLocation, p: MapLocation, q: MapLocation) {
    Min(p.x, q.x) <= c.x <= Max(p.x, q.x) && Min(p.y, q.y) <= c.y <= Max(p.y, q.y)
  }

  /** Twice the deviation of `c` from the line through `p` and `q`, measured
      along the minor axis, never exceeds one cell. */
  predicate NearLine(c: MapLocation, p: MapLocation, q: MapLocation) {
    2 * Abs((c.x - p.x) * (q.y - p.y) - (c.y - p.y) * (q.x - p.x)) <= Max(Abs(q.x - p.x), Abs(q.y - p.y))
  }

  predicate Touching(c: MapLocation, d: MapLocation) { -1 <= c.x - d.x <= 1 && -1 <= c.y - d.y <= 1 }

  /** How many steps the line from `p` to `q` has. */
  function Major(p: MapLocation, q: MapLocation): nat { Max(Abs(q.x - p.x), Abs(q.y - p.y)) }

  /** How far `c` is from `p` along the longer axis of the line to `q`. */
  function Progress(c: MapLocation, p: MapLocation, q: MapLocation): nat {
    if Abs(q.x - p.x) >= Abs(q.y - p.y) then Abs(c.x - p.x) else Abs(c.y - p.y)
  }

  /** A connected trace from `p` that hugs the straight line to `q`, one cell for
      each step along the longer axis. */
  predicate LinePart(ray: seq<MapLocation>, p: MapLocation, q: MapLocation) {
    && 0 < |ray| <= Major(p, q) + 1 && ray[0] == p
    && (forall i :: 0 <= i < |ray| ==> OnLine(ray[i], i, p, q))
    && (forall i :: 0 <= i < |ray| - 1 ==> Touching(ray[i], ray[i + 1]))
    && (|ray| == Major(p, q) + 1 ==> ray[|ray| - 1] == q)
  }

  predicate OnLine(c: MapLocation, i: int, p: MapLocation, q: MapLocation) {
    InBox(c, p, q) && NearLine(c, p, q) && Progress(c, p, q) == i
  }

  /** The whole trace, from `p` to `q`. */
  predicate Line(ray: seq<MapLocation>, p: MapLocation, q: MapLocation) {
    LinePart(ray, p, q) && |ray| == Major(p, q) + 1
  }

  /** The steps of the line from `p` to `q`, the longer axis first. */
  predicate StepsFor(p: MapLocation, q: MapLocation, a: Step, b: Step, da: nat, db: nat) {
    if Abs(q.x - p.x) >= Abs(q.y - p.y)
    then a == Step(Sign(q.x - p.x), 0) && b == Step(0, Sign(q.y - p.y)) && da == Abs(q.x - p.x) && db == Abs(q.y - p.y)
    else a == Step(0, Sign(q.y - p.y)) && b == Step(Sign(q.x - p.x), 0) && da == Abs(q.y - p.y) && db == Abs(q.x - p.x)
  }

  /** The trace `bresenham2D` makes is such a line. */
  lemma RoundedIsLine(ups: seq<int>, da: nat, db: nat, n: nat, p: MapLocation, q: MapLocation, a: Step, b: Step)
    requires StepsFor(p, q, a, b, da, db) && Rounded(ups, da, db, n)
    ensures LinePart(Trace(p, a, b, ups), p, q)
  {
    var ray := Trace(p, a, b, ups);
    MovedNone(p, a, b);
    LastMoved(p, q, a, b, da, db);
    StepsAreMajor(p, q, a, b, da, db);
    hide OnLine, Moved, Touching, StepsFor, Trace, Major;
    forall i | 0 <= i < |ray| ensures OnLine(ray[i], i, p, q) {
      CellOnLine(da, db, i, ups[i], p, q, a, b);
    }
    forall i | 0 <= i < |ray| - 1 ensures Touching(ray[i], ray[i + 1]) {
      NextTouches(p, q, a, b, da, db, i, ups[i], ups[i + 1]);
    }
  }

  lemma StepsAreMajor(p: MapLocation, q: MapLocation, a: Step, b: Step, da: nat, db: nat)
    requires StepsFor(p, q, a, b, da, db)
    ensures Major(p, q) == da && db <= da
  {
  }

  lemma LastMoved(p: MapLocation, q: MapLocation, a: Step, b: Step, da: nat, db: nat)
    requires StepsFor(p, q, a, b, da, db)
    ensures Moved(p, a, da, b, db) == q
  {
  }

  lemma NextTouches(p: MapLocation, q: MapLocation, a: Step, b: Step, da: nat, db: nat, i: int, j: int, j': int)
    requires StepsFor(p, q, a, b, da, db) && j <= j' <= j + 1
    ensures Touching(Moved(p, a, i, b, j), Moved(p, a, i + 1, b, j'))
  {
    assert j' == j || j' == j + 1;
  }

  lemma CellOnLine(da: nat, db: nat, i: int, up: int, p: MapLocation, q: MapLocation, a: Step, b: Step)
    requires StepsFor(p, q, a, b, da, db) && 0 <= i <= da && Close(up, i, da, db)
    ensures OnLine(Moved(p, a, i, b, up), i, p, q)
  {
    hide InBox, NearLine, Moved, Close, Towards;
    MovedTowards(p, q, a, b, da, db, i, up);
    CloseEitherWay(up, i, da, db);
    if Abs(q.x - p.x) >= Abs(q.y - p.y) {
      CellNear(p, q, i, up);
    } else {
      CellNear(p, q, up, i);
    }
  }

  lemma CloseEitherWay(up: int, i: int, da: nat, db: nat)
    requires Close(up, i, da, db)
    ensures 0 <= up <= db && 2 * Abs(i * db - up * da) <= da && 2 * Abs(up * da - i * db) <= da
  {
  }

  /** The cell `i` columns and `j` rows from `p` towards `q`. */
  function Towards(p: MapLocation, q: MapLocation, i: int, j: int): MapLocation {
    MapLocation(p.x + Sign(q.x - p.x) * i, p.y + Sign(q.y - p.y) * j)
  }

  lemma MovedTowards(p: MapLocation, q: MapLocation, a: Step, b: Step, da: nat, db: nat, i: int, up: int)
    requires StepsFor(p, q, a, b, da, db)
    ensures Moved(p, a, i, b, up) ==
      if Abs(q.x - p.x) >= Abs(q.y - p.y) then Towards(p, q, i, up) else Towards(p, q, up, i)
  {
  }

  /** It is in the box and near the line, if the columns and rows are in proportion. */
  lemma CellNear(p: MapLocation, q: MapLocation, i: int, j: int)
    requires 0 <= i <= Abs(q.x - p.x) && 0 <= j <= Abs(q.y - p.y)
    ensures var c := Towards(p, q, i, j);
      && InBox(c, p, q) && Abs(c.x - p.x) == i && Abs(c.y - p.y) == j
      && (2 * Abs(i * Abs(q.y - p.y) - j * Abs(q.x - p.x)) <= Max(Abs(q.x - p.x), Abs(q.y - p.y)) ==> NearLine(c, p, q))
  {
    TowardsBox(p, q, i, j);
    CrossTerm(i, j, q.x - p.x, q.y - p.y, Towards(p, q, i, j), p, q);
  }

  lemma TowardsBox(p: MapLocation, q: MapLocation, i: int, j: int)
    requires 0 <= i <= Abs(q.x - p.x) && 0 <= j <= Abs(q.y - p.y)
    ensures InBox(Towards(p, q, i, j), p, q)
  {
  }

  lemma CrossTerm(i: int, j: int, dx: int, dy: int, c: MapLocation, p: MapLocation, q: MapLocation)
    requires c.x - p.x == Sign(dx) * i && c.y - p.y == Sign(dy) * j && dx == q.x - p.x && dy == q.y - p.y
    ensures Abs((c.x - p.x) * (q.y - p.y) - (c.y - p.y) * (q.x - p.x)) == Abs(i * Abs(dy) - j * Abs(dx))
    ensures i * Abs(dy) == Abs(dy) * i && j * Abs(dx) == Abs(dx) * j
  {
  }

  /** The second half of `raytraceLine`: from `p` towards `q`, over the share
      `scale` of the steps. */
  method TraceTowards(sizeX: nat, p: MapLocation, q: MapLocation, scale: real, cells0: seq<MapLocation>)
    returns (cells: seq<MapLocation>, ghost ray: seq<MapLocation>)
    requires 0 <= p.x < sizeX && 0 <= q.x < sizeX && 0.0 <= scale <= 1.0
    ensures cells == cells0 + ray && LinePart(ray, p, q)
    ensures |ray| == Truncate(Times(scale, Major(p, q) as real)) + 1
  {
    hide LinePart, Index, Rounded, Moved, Trace, Truncate, Times;
    var offset := Index(sizeX, p.x, p.y);
    var dx, dy := q.x - p.x, q.y - p.y;
    var absDx, absDy := Abs(dx), Abs(dy);
    var offsetDx, offsetDy := Sign(dx), Sign(dy) * sizeX;
    ghost var stepX, stepY := Step(Sign(dx), 0), Step(0, Sign(dy));
    StaysInMap(sizeX, p, q, stepX, stepY);
    ShareOfSteps(scale, absDx);
    ShareOfSteps(scale, absDy);
    ghost var ups;
    if absDx >= absDy {
      var length := Truncate(Times(scale, absDx as real));
      cells, ups := Bresenham2D(sizeX, absDx, absDy, offsetDx, offsetDy, offset, length, cells0, p, stepX, stepY);
      ray := Trace(p, stepX, stepY, ups);
      RoundedIsLine(ups, absDx, absDy, length, p, q, stepX, stepY);
      RoundedSize(ups, absDx, absDy, length);
    } else {
      var length := Truncate(Times(scale, absDy as real));
      cells, ups := Bresenham2D(sizeX, absDy, absDx, offsetDy, offsetDx, offset, length, cells0, p, stepY, stepX);
      ray := Trace(p, stepY, stepX, ups);
      RoundedIsLine(ups, absDy, absDx, length, p, q, stepY, stepX);
      RoundedSize(ups, absDy, absDx, length);
    }
  }

  lemma ShareOfSteps(scale: real, steps: nat)
    requires 0.0 <= scale <= 1.0
    ensures 0 <= Truncate(Times(scale, steps as real)) <= steps
    ensures scale == 1.0 ==> Truncate(Times(scale, steps as real)) == steps
  {
    TimesMonotone(steps as real, scale, 1.0);
    TimesMonotone(steps as real, 0.0, scale);
    TimesZero(steps as real);
    TimesIs(1.0, steps as real);
    hide Times;
  }

  /** `raytraceLine` with its default limits. */
  method RaytraceLine(sizeX: nat, p: MapLocation, q: MapLocation, cells0: seq<MapLocation>)
    returns (cells: seq<MapLocation>, ghost ray: seq<MapLocation>)
    requires 0 <= p.x < sizeX && 0 <= q.x < sizeX
    ensures cells == cells0 + ray && Line(ray, p, q)
  {
    hide LinePart, Truncate;
    ShareOfSteps(1.0, Major(p, q));
    cells, ray := TraceTowards(sizeX, p, q, 1.0, cells0);
  }

  /** The real length of an offset, as `hypot` gives it. */
  ghost predicate IsLength(hypot: (int, int) -> real) {
    forall x, y :: hypot(x, y) >= 0.0 && Times(hypot(x, y), hypot(x, y)) == (x * x + y * y) as real
  }

  /** Where the trace starts, `minLength` along the way. */
  function StartAt(p: int, q: int, dist: real, minLength: nat): int
    requires dist >= 0.0
  {
    if dist > 0.0 then Truncate(p as real + Times((q - p) as real / dist, minLength as real)) else p
  }

  lemma StartBetween(p: int, q: int, dist: real, minLength: nat)
    requires p >= 0 && q >= 0 && dist > 0.0 && minLength as real <= dist
    ensures Min(p, q) <= StartAt(p, q, dist, minLength) <= Max(p, q)
    ensures minLength == 0 ==> StartAt(p, q, dist, minLength) == p
  {
    var r := (q - p) as real / dist;
    QuotientTimes((q - p) as real, dist);
    TimesSign(r, dist);
    TimesZero(r);
    if r >= 0.0 {
      TimesMonotone(r, 0.0, minLength as real);
      TimesMonotone(r, minLength as real, dist);
    } else {
      TimesNegates(r, 0.0); TimesNegates(r, minLength as real); TimesNegates(r, dist);
      TimesMonotone(-r, 0.0, minLength as real);
      TimesMonotone(-r, minLength as real, dist);
    }
    TimesZero(-r);
    hide Times;
    TruncateBetween(p as real + Times(r, minLength as real), Min(p, q), Max(p, q));
  }

  /** The trace starts in the cell at the least length: along either axis less than
      a cell from the point at that share of the way. */
  lemma StartIsAtLeastLength(p: int, q: int, dist: real, minLength: nat)
    requires dist > 0.0
    ensures AbsReal(Times((StartAt(p, q, dist, minLength) - p) as real, dist)
                    - Times((q - p) as real, minLength as real)) < dist
  {
    var r, m := (q - p) as real / dist, minLength as real;
    var v := p as real + Times(r, m);
    TruncateIs(v);
    var e := v - Truncate(v) as real;
    QuotientTimes((q - p) as real, dist);
    TimesOrder(e, 1.0, dist);
    TimesOrder(-1.0, e, dist);
    TimesOne(dist, 1.0);
    TimesIs(1.0, dist);
    TimesNegates(1.0, dist);
    ThreeFactors(r, m, dist);
    TimesSubtracts(Times(r, m), e, dist);
    hide Times;
    assert (StartAt(p, q, dist, minLength) - p) as real == Times(r, m) - e;
  }

  lemma ThreeFactors(r: real, m: real, dist: real)
    ensures Times(Times(r, m), dist) == Times(Times(r, dist), m)
  {
  }

  lemma TruncateBetween(v: real, lo: nat, hi: nat)
    requires lo as real <= v <= hi as real
    ensures lo <= Truncate(v) <= hi
    ensures v == lo as real ==> Truncate(v) == lo
  {
  }

  /** The share of the way that `maxLength` allows. */
  function ScaleOf(dist: real, maxLength: nat): real {
    if dist == 0.0 then 1.0 else MinReal(1.0, maxLength as real / dist)
  }

  /** `raytraceLine` with a greatest and a least length: nothing on a ray shorter
      than the least, else a part of the line from the cell at the least length
      on, over the share of its steps that the greatest allows. */
  method RaytraceRange(hypot: (int, int) -> real, sizeX: nat, p: MapLocation, q: MapLocation,
                       maxLength: nat, minLength: nat, cells0: seq<MapLocation>)
    returns (cells: seq<MapLocation>, ghost ray: seq<MapLocation>, start: MapLocation)
    requires IsLength(hypot) && 0 <= p.x < sizeX && 0 <= q.x < sizeX && 0 <= p.y && 0 <= q.y
    ensures cells == cells0 + ray
    ensures var dist := hypot(q.x - p.x, q.y - p.y);
      if dist < minLength as real then ray == []
      else
        && start == MapLocation(StartAt(p.x, q.x, dist, minLength), StartAt(p.y, q.y, dist, minLength))
        && InBox(start, p, q) && LinePart(ray, start, q)
        && |ray| == Truncate(Times(ScaleOf(dist, maxLength), Major(start, q) as real)) + 1
        && (minLength == 0 ==> start == p)
        && (minLength == 0 && dist <= maxLength as real ==> Line(ray, p, q))
  {
    hide LinePart, Truncate, Times, Major;
    var dist := hypot(q.x - p.x, q.y - p.y);
    start := p;
    if dist < minLength as real {
      return cells0, [], p;
    }
    var minX, minY := p.x, p.y;
    if dist > 0.0 {
      minX, minY := StartAt(p.x, q.x, dist, minLength), StartAt(p.y, q.y, dist, minLength);
      StartBetween(p.x, q.x, dist, minLength);
      StartBetween(p.y, q.y, dist, minLength);
      FullShare(dist, maxLength);
    }
    start := MapLocation(minX, minY);
    ShareOfSteps(1.0, Major(start, q));
    cells, ray := TraceTowards(sizeX, start, q, ScaleOf(dist, maxLength), cells0);
  }

  /** The share takes the whole line if that is short enough, and else the share
      whose length is the greatest allowed. */
  lemma FullShare(dist: real, maxLength: nat)
    requires dist > 0.0
    ensures maxLength as real <= dist ==> Times(ScaleOf(dist, maxLength), dist) == maxLength as real
    ensures 0.0 <= ScaleOf(dist, maxLength) <= 1.0
    ensures dist <= maxLength as real ==> ScaleOf(dist, maxLength) == 1.0
  {
    NonNegativeQuotient(maxLength as real, dist);
    QuotientTimes(maxLength as real, dist);
    TimesOrder(maxLength as real / dist, 1.0, dist);
    TimesOne(dist, 1.0);
    TimesIs(1.0, dist);
    hide Times;
  }

  lemma RoundedSize(ups: seq<int>, da: nat, db: nat, n: nat)
    requires Rounded(ups, da, db, n)
    ensures |ups| == n + 1
  {
  }

  lemma StaysInMap(sizeX: nat, p: MapLocation, q: MapLocation, stepX: Step, stepY: Step)
    requires 0 <= p.x < sizeX && 0 <= q.x < sizeX
    requires stepX == Step(Sign(q.x - p.x), 0) && stepY == Step(0, Sign(q.y - p.y))
    ensures forall i, j :: 0 <= i <= Abs(q.x - p.x) ==> 0 <= Moved(p, stepX, i, stepY, j).x < sizeX
    ensures forall i, j :: 0 <= j <= Abs(q.x - p.x) ==> 0 <= Moved(p, stepY, i, stepX, j).x < sizeX
  {
  }

  /** A line visits every column between its ends. */
  lemma {:induction false} ColumnVisited(ray: seq<MapLocation>, x: int)
    requires |ray| > 0 && forall i :: 0 <= i < |ray| - 1 ==> Touching(ray[i], ray[i + 1])
    requires Min(ray[0].x, ray[|ray| - 1].x) <= x <= Max(ray[0].x, ray[|ray| - 1].x)
    ensures exists i :: 0 <= i < |ray| && ray[i].x == x
  {
    if ray[0].x == x {
    } else {
      assert Touching(ray[0], ray[1]);
      ColumnVisited(ray[1..], x);
      var i :| 0 <= i < |ray[1..]| && ray[1..][i].x == x;
      assert ray[i + 1].x == x;
    }
  }
}

/** Filling a polygon on the map (`polygonOutlineCells`, `convexFillCells`). */
module PolygonFill {
  import opened Prelude
  import opened Bresenham

  // ----- counting cells by column -------------------------------------------

  /** How many entries of `cells` lie in column `x`. */
  function Count(cells: seq<MapLocation>, x: int): nat {
    if cells == [] then 0
    else Count(cells[..|cells| - 1], x) + (if cells[|cells| - 1].x == x then 1 else 0)
  }

  lemma {:induction false} CountConcat(a: seq<MapLocation>, b: seq<MapLocation>, x: int)
    ensures Count(a + b, x) == Count(a, x) + Count(b, x)
  {
    if b == [] {
      assert a + b == a;
    } else {
      var n := |b| - 1;
      assert (a + b)[..|a| + n] == a + b[..n];
      CountConcat(a, b[..n], x);
    }
  }

  lemma {:induction false} CountPresent(cells: seq<MapLocation>, x: int, i: nat)
    requires i < |cells| && cells[i].x == x
    ensures Count(cells, x) >= 1
  {
    if i < |cells| - 1 {
      CountPresent(cells[..|cells| - 1], x, i);
    }
  }

  lemma {:induction false} CountAbsent(cells: seq<MapLocation>, x: int)
    requires forall i :: 0 <= i < |cells| ==> cells[i].x != x
    ensures Count(cells, x) == 0
  {
    if cells != [] {
      CountAbsent(cells[..|cells| - 1], x);
    }
  }

  // ----- the outline ---------------------------------------------------------

  function Flatten(rays: seq<seq<MapLocation>>): seq<MapLocation> {
    if rays == [] then [] else Flatten(rays[..|rays| - 1]) + rays[|rays| - 1]
  }

  lemma FlattenGrows(rays: seq<seq<MapLocation>>, ray: seq<MapLocation>)
    ensures Flatten(rays + [ray]) == Flatten(rays) + ray
  {
    assert (rays + [ray])[..|rays|] == rays;
  }

  function Next(k: int, n: nat): int { if k + 1 == n then 0 else k + 1 }

  /** One line per edge, the last edge closing the polygon. */
  predicate Edges(polygon: seq<MapLocation>, rays: seq<seq<MapLocation>>) {
    |rays| == |polygon|
    && forall k :: 0 <= k < |rays| ==> Line(rays[k], polygon[k], polygon[Next(k, |polygon|)])
  }

  /** `polygonOutlineCells`.  The loop bound `polygon.size() - 1` is unsigned,
      so the code needs at least one vertex. */
  method PolygonOutlineCells(sizeX: nat, polygon: seq<MapLocation>, cells0: seq<MapLocation>)
    returns (cells: seq<MapLocation>, ghost rays: seq<seq<MapLocation>>)
    requires polygon != [] && forall p :: p in polygon ==> 0 <= p.x < sizeX
    ensures Edges(polygon, rays) && cells == cells0 + Flatten(rays)
  {
    cells, rays := cells0, [];
    NothingTraced(polygon, cells0);
    hide Traced;
    for i := 0 to |polygon| - 1
      invariant Traced(polygon, rays, cells0, cells, i)
    {
      ghost var was, ray := cells, [];
      cells, ray := RaytraceLine(sizeX, polygon[i], polygon[i + 1], cells);
      EdgeTraced(polygon, rays, cells0, was, i, ray);
      rays := rays + [ray];
    }
    var lastIndex := |polygon| - 1;
    ghost var was, ray := cells, [];
    cells, ray := RaytraceLine(sizeX, polygon[lastIndex], polygon[0], cells);
    EdgeTraced(polygon, rays, cells0, was, lastIndex, ray);
    rays := rays + [ray];
    AllTraced(polygon, rays, cells0, cells);
  }

  /** The first `n` edges have been traced. */
  predicate Traced(polygon: seq<MapLocation>, rays: seq<seq<MapLocation>>, cells0: seq<MapLocation>,
                   cells: seq<MapLocation>, n: nat) {
    && |rays| == n <= |polygon| && cells == cells0 + Flatten(rays)
    && forall k :: 0 <= k < n ==> Line(rays[k], polygon[k], polygon[Next(k, |polygon|)])
  }

  lemma NothingTraced(polygon: seq<MapLocation>, cells0: seq<MapLocation>)
    ensures Traced(polygon, [], cells0, cells0, 0)
  {
  }

  lemma EdgeTraced(polygon: seq<MapLocation>, rays: seq<seq<MapLocation>>, cells0: seq<MapLocation>,
                   cells: seq<MapLocation>, n: nat, ray: seq<MapLocation>)
    requires Traced(polygon, rays, cells0, cells, n) && n < |polygon|
    requires Line(ray, polygon[n], polygon[Next(n, |polygon|)])
    ensures Traced(polygon, rays + [ray], cells0, cells + ray, n + 1)
  {
    hide Line, Flatten;
    FlattenGrows(rays, ray);
    assert cells0 + Flatten(rays) + ray == cells0 + (Flatten(rays) + ray);
  }

  lemma AllTraced(polygon: seq<MapLocation>, rays: seq<seq<MapLocation>>, cells0: seq<MapLocation>,
                  cells: seq<MapLocation>)
    requires Traced(polygon, rays, cells0, cells, |polygon|)
    ensures Edges(polygon, rays) && cells == cells0 + Flatten(rays)
  {
    hide Line, Flatten;
  }

  predicate Spans(p: MapLocation, q: MapLocation, x: int) { Min(p.x, q.x) <= x <= Max(p.x, q.x) }

  /** Walking along the vertices from one side of column `x` to the other
      crosses it on some edge. */
  lemma {:induction false} WalkCrosses(polygon: seq<MapLocation>, lo: nat, hi: nat, x: int) returns (k: nat)
    requires lo < hi < |polygon|
    requires (polygon[lo].x < x) != (polygon[hi].x < x)
    ensures lo <= k < hi && Spans(polygon[k], polygon[k + 1], x)
    decreases hi - lo
  {
    if (polygon[lo].x < x) != (polygon[lo + 1].x < x) {
      k := lo;
    } else {
      k := WalkCrosses(polygon, lo + 1, hi, x);
    }
  }

  /** A closed polygon crosses every column of its range at least twice. */
  lemma TwoEdgesSpan(polygon: seq<MapLocation>, a: nat, b: nat, x: int) returns (k: nat, l: nat)
    requires a < |polygon| && b < |polygon| && |polygon| >= 2
    requires polygon[a].x <= x <= polygon[b].x
    ensures k < l < |polygon|
    ensures Spans(polygon[k], polygon[Next(k, |polygon|)], x)
    ensures Spans(polygon[l], polygon[Next(l, |polygon|)], x)
  {
    var n := |polygon|;
    if j :| 0 <= j < n && polygon[j].x == x {
      var before := if j == 0 then n - 1 else j - 1;
      k, l := Min(j, before), Max(j, before);
    } else {
      var lo, hi := Min(a, b), Max(a, b);
      var inner := WalkCrosses(polygon, lo, hi, x);
      var outer;
      if (polygon[hi].x < x) != (polygon[n - 1].x < x) {
        outer := WalkCrosses(polygon, hi, n - 1, x);
      } else if (polygon[n - 1].x < x) != (polygon[0].x < x) {
        outer := n - 1;
      } else {
        outer := WalkCrosses(polygon, 0, lo, x);
      }
      k, l := Min(inner, outer), Max(inner, outer);
    }
  }

  lemma {:induction false} CountInRays(rays: seq<seq<MapLocation>>, k: nat, l: nat, x: int)
    requires k < l < |rays| && Count(rays[k], x) >= 1 && Count(rays[l], x) >= 1
    ensures Count(Flatten(rays), x) >= 2
  {
    var n := |rays| - 1;
    CountConcat(Flatten(rays[..n]), rays[n], x);
    if l < n {
      CountInRays(rays[..n], k, l, x);
    } else {
      CountInOneRay(rays[..n], k, x);
    }
  }

  lemma {:induction false} CountInOneRay(rays: seq<seq<MapLocation>>, k: nat, x: int)
    requires k < |rays| && Count(rays[k], x) >= 1
    ensures Count(Flatten(rays), x) >= 1
  {
    var n := |rays| - 1;
    CountConcat(Flatten(rays[..n]), rays[n], x);
    if k < n {
      CountInOneRay(rays[..n], k, x);
    }
  }

  lemma {:induction false} InSomeRay(rays: seq<seq<MapLocation>>, c: MapLocation) returns (k: nat)
    requires c in Flatten(rays)
    ensures k < |rays| && c in rays[k]
  {
    var n := |rays| - 1;
    if c in rays[n] {
      k := n;
    } else {
      k := InSomeRay(rays[..n], c);
    }
  }

  lemma {:induction false} RayInFlatten(rays: seq<seq<MapLocation>>, k: nat, c: MapLocation)
    requires k < |rays| && c in rays[k]
    ensures c in Flatten(rays)
  {
    if k < |rays| - 1 {
      RayInFlatten(rays[..|rays| - 1], k, c);
    }
  }

  lemma EdgeCounts(polygon: seq<MapLocation>, rays: seq<seq<MapLocation>>, k: nat, x: int)
    requires Edges(polygon, rays) && k < |rays| && Spans(polygon[k], polygon[Next(k, |polygon|)], x)
    ensures Count(rays[k], x) >= 1
  {
    ColumnVisited(rays[k], x);
    var i :| 0 <= i < |rays[k]| && rays[k][i].x == x;
    CountPresent(rays[k], x, i);
  }

  /** Every column between two outline cells holds at least two of them. */
  lemma TwoPerColumn(polygon: seq<MapLocation>, rays: seq<seq<MapLocation>>, x: int, c: MapLocation, d: MapLocation)
    requires Edges(polygon, rays) && |polygon| >= 2
    requires c in Flatten(rays) && d in Flatten(rays) && c.x <= x <= d.x
    ensures Count(Flatten(rays), x) >= 2
  {
    var a := VertexBeyond(polygon, rays, c, true);
    var b := VertexBeyond(polygon, rays, d, false);
    var k, l := TwoEdgesSpan(polygon, a, b, x);
    EdgeCounts(polygon, rays, k, x);
    EdgeCounts(polygon, rays, l, x);
    CountInRays(rays, k, l, x);
  }

  lemma VertexBeyond(polygon: seq<MapLocation>, rays: seq<seq<MapLocation>>, c: MapLocation, left: bool)
    returns (a: nat)
    requires Edges(polygon, rays) && c in Flatten(rays)
    ensures a < |polygon| && if left then polygon[a].x <= c.x else c.x <= polygon[a].x
  {
    var k := InSomeRay(rays, c);
    var n := Next(k, |polygon|);
    assert InBox(c, polygon[k], polygon[n]);
    a := if (polygon[k].x <= polygon[n].x) == left then k else n;
  }

  // ----- the sort --------------------------------------------------------------

  predicate SortedByX(cells: seq<MapLocation>) {
    forall i, j :: 0 <= i < j < |cells| ==> cells[i].x <= cells[j].x
  }

  /** The entries weighted by their distance to the end: every exchange of an
      out-of-order pair makes this smaller. */
  function Weight(cells: seq<MapLocation>): int {
    if cells == [] then 0 else |cells| * cells[0].x + Weight(cells[1..])
  }

  lemma {:induction false} WeightNonNegative(cells: seq<MapLocation>)
    requires forall c :: c in cells ==> c.x >= 0
    ensures Weight(cells) >= 0
  {
    if cells != [] {
      WeightNonNegative(cells[1..]);
    }
  }

  function Swapped(cells: seq<MapLocation>, i: nat): seq<MapLocation>
    requires i + 1 < |cells|
  {
    cells[i := cells[i + 1]][i + 1 := cells[i]]
  }

  lemma {:induction false} SwapLightens(cells: seq<MapLocation>, i: nat)
    requires i + 1 < |cells|
    ensures Weight(Swapped(cells, i)) == Weight(cells) - (cells[i].x - cells[i + 1].x)
  {
    var s := Swapped(cells, i);
    if i == 0 {
      assert s[1..][1..] == cells[1..][1..];
      assert |cells| * cells[0].x == (|cells| - 1) * cells[0].x + cells[0].x;
      assert |cells| * cells[1].x == (|cells| - 1) * cells[1].x + cells[1].x;
    } else {
      SwapLightens(cells[1..], i - 1);
      assert s[1..] == Swapped(cells[1..], i - 1);
    }
  }

  lemma SwapPermutes(cells: seq<MapLocation>, i: nat)
    requires i + 1 < |cells|
    ensures multiset(Swapped(cells, i)) == multiset(cells)
  {
    var a, b, c, rest := cells[..i], cells[i], cells[i + 1], cells[i + 2..];
    assert cells == a + ([b, c] + rest);
    assert Swapped(cells, i) == a + ([c, b] + rest);
    TwoInTheMiddle(a, b, c, rest);
    TwoInTheMiddle(a, c, b, rest);
  }

  lemma TwoInTheMiddle<T>(a: seq<T>, b: T, c: T, rest: seq<T>)
    ensures multiset(a + ([b, c] + rest)) == multiset(a) + multiset{b, c} + multiset(rest)
  {
    assert multiset([b, c]) == multiset{b, c};
    assert multiset([b, c] + rest) == multiset([b, c]) + multiset(rest);
    assert multiset(a + ([b, c] + rest)) == multiset(a) + multiset([b, c] + rest);
  }

  lemma SwapKeepsCount(cells: seq<MapLocation>, i: nat, x: int)
    requires i + 1 < |cells|
    ensures Count(Swapped(cells, i), x) == Count(cells, x)
  {
    var a, b, c, rest := cells[..i], [cells[i]], [cells[i + 1]], cells[i + 2..];
    assert cells == ((a + b) + c) + rest;
    assert Swapped(cells, i) == ((a + c) + b) + rest;
    CountConcat((a + b) + c, rest, x);
    CountConcat((a + c) + b, rest, x);
    CountConcat(a + b, c, x); CountConcat(a + c, b, x);
    CountConcat(a, b, x); CountConcat(a, c, x);
  }

  /** The hand-written sort by x: exchange and step back, else step on. */
  method SortByX(cells0: seq<MapLocation>) returns (cells: seq<MapLocation>)
    requires cells0 != [] && forall c :: c in cells0 ==> c.x >= 0
    ensures SortedByX(cells) && multiset(cells) == multiset(cells0)
    ensures forall x :: Count(cells, x) == Count(cells0, x)
  {
    hide Count, Weight;
    cells := cells0;
    var i := 0;
    WeightNonNegative(cells);
    while i < |cells| - 1
      invariant 0 <= i < |cells| && |cells| == |cells0|
      invariant multiset(cells) == multiset(cells0)
      invariant forall x :: Count(cells, x) == Count(cells0, x)
      invariant SortedByX(cells[..i + 1])
      invariant Weight(cells) >= 0
      decreases Weight(cells), |cells| - i
    {
      if cells[i].x > cells[i + 1].x {
        SwapLightens(cells, i);
        SwapPermutes(cells, i);
        forall x ensures Count(Swapped(cells, i), x) == Count(cells, x) { SwapKeepsCount(cells, i, x); }
        ghost var was := cells;
        var swap := cells[i];
        cells := cells[i := cells[i + 1]];
        cells := cells[i + 1 := swap];
        assert cells == Swapped(was, i);
        SameMembers(cells, cells0);
        WeightNonNegative(cells);
        assert cells[..i] == was[..i];
        assert SortedByX(was[..i + 1][..i]);
        assert was[..i + 1][..i] == was[..i];
        if i > 0 {
          i := i - 1;
        }
      } else {
        assert cells[..i + 1][i] == cells[i];
        assert cells[..i + 2] == cells[..i + 1] + [cells[i + 1]];
        i := i + 1;
      }
    }
    assert cells[..i + 1] == cells;
  }

  lemma SameMembers(a: seq<MapLocation>, b: seq<MapLocation>)
    requires multiset(a) == multiset(b)
    ensures forall c :: c in a <==> c in b
  {
    forall c ensures c in a <==> c in b {
      assert c in a <==> c in multiset(a);
      assert c in b <==> c in multiset(b);
    }
  }

  // ----- the fill ---------------------------------------------------------------

  /** `c` lies between two cells of `cells` in its own column. */
  ghost predicate InHull(cells: seq<MapLocation>, c: MapLocation) {
    exists p, q :: p in cells && q in cells && p.x == c.x == q.x && p.y <= c.y <= q.y
  }

  /** The entries before `i` lie left of column `x`, the others do not. */
  predicate SplitAt(s: seq<MapLocation>, i: int, x: int) {
    && 0 <= i <= |s|
    && (forall k :: 0 <= k < i ==> s[k].x < x)
    && (forall k :: i <= k < |s| ==> s[k].x >= x)
  }

  /** Sorted, a column with two cells starts with them. */
  lemma TwoAtSplit(s: seq<MapLocation>, i: int, x: int)
    requires SortedByX(s) && SplitAt(s, i, x) && Count(s, x) >= 2
    ensures i + 1 < |s| && s[i].x == x && s[i + 1].x == x
  {
    hide Count;
    CountConcat(s[..i], s[i..], x);
    assert s == s[..i] + s[i..];
    CountAbsent(s[..i], x);
    if |s| <= i || s[i].x != x {
      CountAbsent(s[i..], x);
    } else if |s| <= i + 1 || s[i + 1].x != x {
      assert s[i..] == [s[i]] + s[i + 1..];
      CountConcat([s[i]], s[i + 1..], x);
      CountAbsent(s[i + 1..], x);
      CountOne(s[i], x);
    }
  }

  lemma CountOne(c: MapLocation, x: int)
    ensures Count([c], x) <= 1
  {
    assert [c][..0] == [];
  }

  /** Scan the entries of column `x` from `i` on for its lowest and highest
      cell.  The vector already holds the cells filled into earlier columns. */
  method ScanColumn(cells: seq<MapLocation>, ghost s: seq<MapLocation>, i0: int, x: int)
    returns (i: int, minPt: MapLocation, maxPt: MapLocation)
    requires s <= cells && SortedByX(s) && SplitAt(s, i0, x)
    requires forall k :: |s| <= k < |cells| ==> cells[k].x < x
    requires i0 + 1 < |s| && s[i0].x == x && s[i0 + 1].x == x
    ensures SplitAt(s, i, x + 1)
    ensures minPt in s && maxPt in s && minPt.x == maxPt.x == x
    ensures forall c :: c in s && c.x == x ==> minPt.y <= c.y <= maxPt.y
  {
    i := i0;
    if cells[i].y < cells[i + 1].y {
      minPt, maxPt := cells[i], cells[i + 1];
    } else {
      minPt, maxPt := cells[i + 1], cells[i];
    }
    i := i + 2;
    while i < |cells| && cells[i].x == x
      invariant i0 + 2 <= i <= |s|
      invariant minPt in s && maxPt in s && minPt.x == maxPt.x == x
      invariant forall k :: i0 <= k < i ==> s[k].x == x && minPt.y <= s[k].y <= maxPt.y
    {
      if cells[i].y < minPt.y {
        minPt := cells[i];
      } else if cells[i].y > maxPt.y {
        maxPt := cells[i];
      }
      i := i + 1;
    }
    assert i < |s| ==> cells[i] == s[i] && s[i].x > x;
    forall c | c in s && c.x == x ensures minPt.y <= c.y <= maxPt.y {
      var k :| 0 <= k < |s| && s[k] == c;
      assert i0 <= k < i;
    }
  }

  /** Append one column of cells, from `lo` to `hi`. */
  method AppendColumn(cells0: seq<MapLocation>, x: int, lo: int, hi: int) returns (cells: seq<MapLocation>)
    requires lo <= hi
    ensures cells0 <= cells
    ensures forall c :: c in cells[|cells0|..] <==> c.x == x && lo <= c.y <= hi
  {
    cells := cells0;
    var y := lo;
    while y <= hi
      invariant lo <= y <= hi + 1
      invariant cells0 <= cells
      invariant forall c :: c in cells[|cells0|..] <==> c.x == x && lo <= c.y < y
    {
      var pt := MapLocation(x, y);
      assert (cells + [pt])[|cells0|..] == cells[|cells0|..] + [pt];
      cells := cells + [pt];
      y := y + 1;
    }
  }

  /** The column walk of `convexFillCells`: it appends to the vector it is
      walking, and ends with exactly the column-wise hull of the outline. */
  method FillColumns(s: seq<MapLocation>) returns (cells: seq<MapLocation>)
    requires s != [] && SortedByX(s)
    requires forall x :: s[0].x <= x <= s[|s| - 1].x ==> Count(s, x) >= 2
    ensures s <= cells
    ensures forall c :: c in cells <==> InHull(s, c)
  {
    hide Count, InHull;
    cells := s;
    var i := 0;
    var minX, maxX := s[0].x, s[|s| - 1].x;
    var x := minX;
    while x <= maxX
      invariant minX <= x <= maxX + 1
      invariant s <= cells && SplitAt(s, i, x)
      invariant forall c :: c in cells[|s|..] <==> minX <= c.x < x && InHull(s, c)
    {
      TwoAtSplit(s, i, x);
      if i >= |cells| - 1 {
        break;
      }
      forall k | |s| <= k < |cells| ensures cells[k].x < x { assert cells[k] == cells[|s|..][k - |s|]; }
      var minPt, maxPt;
      i, minPt, maxPt := ScanColumn(cells, s, i, x);
      ColumnIsHull(s, x, minPt, maxPt);
      var was := cells;
      cells := AppendColumn(cells, x, minPt.y, maxPt.y);
      assert cells[|s|..] == was[|s|..] + cells[|was|..];
      x := x + 1;
    }
    assert cells == s + cells[|s|..];
    forall c ensures c in cells <==> InHull(s, c) {
      HullInRange(s, c);
    }
  }

  lemma ColumnIsHull(s: seq<MapLocation>, x: int, minPt: MapLocation, maxPt: MapLocation)
    requires minPt in s && maxPt in s && minPt.x == maxPt.x == x
    requires forall c :: c in s && c.x == x ==> minPt.y <= c.y <= maxPt.y
    ensures forall c: MapLocation :: c.x == x ==> (minPt.y <= c.y <= maxPt.y <==> InHull(s, c))
  {
  }

  lemma HullInRange(s: seq<MapLocation>, c: MapLocation)
    requires s != [] && SortedByX(s)
    ensures c in s ==> InHull(s, c)
    ensures InHull(s, c) ==> s[0].x <= c.x <= s[|s| - 1].x
  {
  }

  lemma HullPermutes(a: seq<MapLocation>, b: seq<MapLocation>)
    requires multiset(a) == multiset(b)
    ensures forall c :: InHull(a, c) <==> InHull(b, c)
  {
    SameMembers(a, b);
  }

  /** The outline is ready to be sorted and filled. */
  lemma OutlineFillable(polygon: seq<MapLocation>, rays: seq<seq<MapLocation>>, s: seq<MapLocation>)
    requires Edges(polygon, rays) && |polygon| >= 2
    requires multiset(s) == multiset(Flatten(rays)) && s != []
    requires forall x :: Count(s, x) == Count(Flatten(rays), x)
    ensures forall x :: s[0].x <= x <= s[|s| - 1].x ==> Count(s, x) >= 2
  {
    hide Count, Edges;
    SameMembers(s, Flatten(rays));
    forall x | s[0].x <= x <= s[|s| - 1].x ensures Count(s, x) >= 2 {
      TwoPerColumn(polygon, rays, x, s[0], s[|s| - 1]);
    }
  }

  lemma OutlineInBounds(polygon: seq<MapLocation>, rays: seq<seq<MapLocation>>, sizeX: int, sizeY: int)
    requires Edges(polygon, rays) && polygon != []
    requires forall p :: p in polygon ==> 0 <= p.x < sizeX && 0 <= p.y < sizeY
    ensures forall c :: c in Flatten(rays) ==> 0 <= c.x < sizeX && 0 <= c.y < sizeY
    ensures forall p :: p in polygon ==> p in Flatten(rays)
  {
    forall c | c in Flatten(rays) ensures 0 <= c.x < sizeX && 0 <= c.y < sizeY {
      var k := InSomeRay(rays, c);
      assert InBox(c, polygon[k], polygon[Next(k, |polygon|)]);
      assert polygon[k] in polygon && polygon[Next(k, |polygon|)] in polygon;
    }
    forall p | p in polygon ensures p in Flatten(rays) {
      var k :| 0 <= k < |polygon| && polygon[k] == p;
      assert Line(rays[k], p, polygon[Next(k, |polygon|)]);
      assert rays[k][0] == p;
      RayInFlatten(rays, k, p);
    }
  }

  /** `convexFillCells` on an empty result vector: every cell between two
      outline cells of its column, and no other. */
  method ConvexFillCells(sizeX: nat, ghost sizeY: nat, polygon: seq<MapLocation>)
    returns (cells: seq<MapLocation>, ghost rays: seq<seq<MapLocation>>)
    requires forall p :: p in polygon ==> 0 <= p.x < sizeX && 0 <= p.y < sizeY
    ensures |polygon| < 3 ==> cells == []
    ensures |polygon| >= 3 ==> Edges(polygon, rays) && forall c :: c in cells <==> InHull(Flatten(rays), c)
    ensures |polygon| >= 3 ==> forall p :: p in polygon ==> p in cells
    ensures forall c :: c in cells ==> 0 <= c.x < sizeX && 0 <= c.y < sizeY
  {
    hide Count, Edges, Flatten;
    cells, rays := [], [];
    if |polygon| < 3 {
      return;
    }
    cells, rays := PolygonOutlineCells(sizeX, polygon, []);
    assert cells == Flatten(rays);
    OutlineInBounds(polygon, rays, sizeX, sizeY);
    assert polygon[0] in cells;
    var sorted := SortByX(cells);
    assert |sorted| == |cells| by { assert |multiset(sorted)| == |multiset(cells)|; }
    OutlineFillable(polygon, rays, sorted);
    HullPermutes(sorted, cells);
    cells := FillColumns(sorted);
  }
}

/** The ray-crossing test of the collision monitor (`Polygon::isPointInside`). */
module PointInPolygon {
  import opened Prelude
  import opened RealArithmetic

  datatype Point = Point(x: real, y: real)

  // ----- one edge ------------------------------------------------------------

  /** The code's test that the level of `p` separates the ends of the edge. */
  predicate Straddles(p: Point, a: Point, b: Point) { (p.y <= a.y) == (p.y > b.y) }

  /** Where the edge meets the level of `p`. */
  function XInter(p: Point, a: Point, b: Point): real
    requires Straddles(p, a, b)
  {
    a.x + (p.y - a.y) * (b.x - a.x) / (b.y - a.y)
  }

  /** The edge inverts the result of the test. */
  predicate Crosses(p: Point, a: Point, b: Point) { Straddles(p, a, b) && XInter(p, a, b) > p.x }

  /** Twice the signed area of the triangle `p a b`: positive when `p` lies to
      the left of the way from `a` to `b`. */
  function Orient(p: Point, a: Point, b: Point): real {
    (a.x - p.x) * (b.y - p.y) - (a.y - p.y) * (b.x - p.x)
  }

  lemma OrientReverses(p: Point, a: Point, b: Point)
    ensures Orient(p, b, a) == -Orient(p, a, b)
  {
  }

  /** `(XInter - p.x) * (b.y - a.y)` is the orientation. */
  lemma InterIsOrient(p: Point, a: Point, b: Point)
    requires Straddles(p, a, b)
    ensures Times(XInter(p, a, b) - p.x, b.y - a.y) == Orient(p, a, b)
  {
    var h := b.y - a.y;
    var n := (p.y - a.y) * (b.x - a.x);
    var q := n / h;
    assert q * h == n;
    assert XInter(p, a, b) == a.x + q;
    assert (a.x + q - p.x) * h == (a.x - p.x) * h + q * h;
    OrientExpanded(p, a, b);
  }

  lemma OrientExpanded(p: Point, a: Point, b: Point)
    ensures Orient(p, a, b) == (a.x - p.x) * (b.y - a.y) + (p.y - a.y) * (b.x - a.x)
  {
  }

  /** An edge crosses the ray exactly when it straddles the level of `p` and
      has `p` on its left going up, or on its right going down. */
  lemma CrossesBySide(p: Point, a: Point, b: Point)
    ensures Crosses(p, a, b) <==>
      || (a.y < p.y <= b.y && Orient(p, a, b) > 0.0)
      || (b.y < p.y <= a.y && Orient(p, a, b) < 0.0)
  {
    if Straddles(p, a, b) {
      InterIsOrient(p, a, b);
      hide Times, Orient, XInter;
      TimesSign(XInter(p, a, b) - p.x, b.y - a.y);
    }
  }

  lemma CrossesSymmetric(p: Point, a: Point, b: Point)
    ensures Crosses(p, a, b) == Crosses(p, b, a)
  {
    CrossesBySide(p, a, b);
    CrossesBySide(p, b, a);
    OrientReverses(p, a, b);
    hide Orient, Crosses;
  }

  // ----- parity over paths and cycles of vertices -------------------------------

  /** Whether an odd number of the steps along `vs` satisfy `e`. */
  function PathParity(e: (Point, Point) -> bool, vs: seq<Point>): bool {
    if |vs| < 2 then false
    else PathParity(e, vs[..|vs| - 1]) != e(vs[|vs| - 2], vs[|vs| - 1])
  }

  /** The same, with the step from the last vertex to the first. */
  function CycleParity(e: (Point, Point) -> bool, vs: seq<Point>): bool {
    if vs == [] then false else PathParity(e, vs) != e(vs[|vs| - 1], vs[0])
  }

  lemma {:induction false} PathJoin(e: (Point, Point) -> bool, a: seq<Point>, b: seq<Point>)
    requires a != [] && b != []
    ensures PathParity(e, a + b) == ((PathParity(e, a) != e(a[|a| - 1], b[0])) != PathParity(e, b))
  {
    var n := |b| - 1;
    assert (a + b)[..|a| + n] == a + b[..n];
    if n == 0 {
      assert a + b[..n] == a;
    } else {
      PathJoin(e, a, b[..n]);
      assert b[..n][0] == b[0];
    }
  }

  lemma CycleRotates(e: (Point, Point) -> bool, a: seq<Point>, b: seq<Point>)
    ensures CycleParity(e, a + b) == CycleParity(e, b + a)
  {
    if a == [] {
      assert a + b == b && b + a == b;
    } else if b == [] {
      assert a + b == a && b + a == a;
    } else {
      PathJoin(e, a, b);
      PathJoin(e, b, a);
      hide PathParity;
    }
  }

  function Reversed(vs: seq<Point>): (r: seq<Point>)
    ensures |r| == |vs|
    ensures forall k :: 0 <= k < |vs| ==> r[k] == vs[|vs| - 1 - k]
  {
    seq(|vs|, k requires 0 <= k < |vs| => vs[|vs| - 1 - k])
  }

  lemma {:induction false} PathReverses(e: (Point, Point) -> bool, vs: seq<Point>)
    requires forall a, b :: e(a, b) == e(b, a)
    ensures PathParity(e, Reversed(vs)) == PathParity(e, vs)
  {
    if |vs| >= 2 {
      var n := |vs| - 1;
      var v := vs[n];
      PathReverses(e, vs[..n]);
      assert Reversed(vs) == [v] + Reversed(vs[..n]);
      PathJoin(e, [v], Reversed(vs[..n]));
    }
  }

  lemma CycleReverses(e: (Point, Point) -> bool, vs: seq<Point>)
    requires forall a, b :: e(a, b) == e(b, a)
    ensures CycleParity(e, Reversed(vs)) == CycleParity(e, vs)
  {
    PathReverses(e, vs);
  }

  /** A closed walk changes sides an even number of times. */
  lemma {:induction false} SidesTelescope(e: (Point, Point) -> bool, f: Point -> bool, vs: seq<Point>)
    requires forall a, b :: e(a, b) == (f(a) != f(b))
    requires vs != []
    ensures PathParity(e, vs) == (f(vs[0]) != f(vs[|vs| - 1]))
  {
    if |vs| >= 2 {
      SidesTelescope(e, f, vs[..|vs| - 1]);
    }
  }

  /** Two edge tests that agree along the walk have the same parity. */
  lemma {:induction false} PathAgrees(e: (Point, Point) -> bool, g: (Point, Point) -> bool, vs: seq<Point>)
    requires forall a, b :: a in vs && b in vs ==> e(a, b) == g(a, b)
    ensures PathParity(e, vs) == PathParity(g, vs)
  {
    if |vs| >= 2 {
      PathAgrees(e, g, vs[..|vs| - 1]);
    }
  }

  /** Cutting along the chord between the ends of `a`: the chord is counted
      in both parts, and cancels. */
  lemma CycleSplits(e: (Point, Point) -> bool, a: seq<Point>, b: seq<Point>)
    requires forall u, v :: e(u, v) == e(v, u)
    requires a != [] && b != []
    ensures CycleParity(e, a + b) == (CycleParity(e, a) != CycleParity(e, [a[|a| - 1]] + b + [a[0]]))
  {
    var last, first := a[|a| - 1], a[0];
    PathJoin(e, a, b);
    PathJoin(e, [last], b);
    PathJoin(e, [last] + b, [first]);
    assert PathParity(e, [last]) == false && PathParity(e, [first]) == false;
    assert ([last] + b)[|b|] == b[|b| - 1];
    hide PathParity;
    assert e(last, first) == e(first, last);
  }

  lemma PathGrows(e: (Point, Point) -> bool, vs: seq<Point>, j: nat)
    requires j < |vs|
    ensures PathParity(e, vs[..j + 1]) == if j == 0 then false else PathParity(e, vs[..j]) != e(vs[j - 1], vs[j])
  {
    assert vs[..j + 1][..j] == vs[..j];
  }

  lemma ShortPath(e: (Point, Point) -> bool, vs: seq<Point>)
    requires |vs| < 2
    ensures !PathParity(e, vs)
  {
  }

  // ----- the test ------------------------------------------------------------------

  function EdgeTest(p: Point): (Point, Point) -> bool { (a, b) => Crosses(p, a, b) }

  /** What the test answers: an odd number of edges cross the ray. */
  function Inside(p: Point, poly: seq<Point>): bool { CycleParity(EdgeTest(p), poly) }

  /** `isPointInside`. */
  method IsPointInside(poly: seq<Point>, point: Point) returns (res: bool)
    ensures res == Inside(point, poly)
  {
    hide Crosses, XInter, PathParity;
    assert PathParity(EdgeTest(point), poly[..0]) == false by { ShortPath(EdgeTest(point), poly[..0]); }
    var polySize := |poly|;
    res := false;
    var i := polySize - 1;
    var j := 0;
    while j < polySize
      invariant 0 <= j <= polySize && i == (if j == 0 then polySize - 1 else j - 1)
      invariant var closing := j > 0 && Crosses(point, poly[polySize - 1], poly[0]);
        res == (closing != PathParity(EdgeTest(point), poly[..j]))
    {
      CrossingStep(point, poly[i], poly[j]);
      assert poly[..j + 1][..j] == poly[..j];
      PathGrows(EdgeTest(point), poly, j);
      assert EdgeTest(point)(poly[i], poly[j]) == Crosses(point, poly[i], poly[j]);
      if (point.y <= poly[i].y) == (point.y > poly[j].y) {
        var xInter := XInter(point, poly[i], poly[j]);
        if xInter > point.x {
          res := !res;
        }
      }
      i := j;
      j := j + 1;
    }
    assert poly[..polySize] == poly;
  }

  lemma CrossingStep(p: Point, a: Point, b: Point)
    ensures Crosses(p, a, b) <==> Straddles(p, a, b) && XInter(p, a, b) > p.x
  {
  }

  lemma EdgeTestSymmetric(p: Point)
    ensures forall a, b :: EdgeTest(p)(a, b) == EdgeTest(p)(b, a)
  {
    hide Crosses;
    forall a, b ensures EdgeTest(p)(a, b) == EdgeTest(p)(b, a) {
      CrossesSymmetric(p, a, b);
    }
  }

  /** The answer does not depend on which vertex comes first... */
  lemma InsideRotates(p: Point, poly: seq<Point>, k: nat)
    requires k <= |poly|
    ensures Inside(p, poly[k..] + poly[..k]) == Inside(p, poly)
  {
    assert poly == poly[..k] + poly[k..];
    CycleRotates(EdgeTest(p), poly[..k], poly[k..]);
  }

  /** ... nor on the direction the vertices are listed in. */
  lemma InsideReverses(p: Point, poly: seq<Point>)
    ensures Inside(p, Reversed(poly)) == Inside(p, poly)
  {
    EdgeTestSymmetric(p);
    CycleReverses(EdgeTest(p), poly);
  }

  /** Splitting along the diagonal from vertex `i` to vertex `j` splits the
      answer: inside the whole is inside exactly one of the parts. */
  lemma InsideSplits(p: Point, poly: seq<Point>, i: nat, j: nat)
    requires i < j < |poly|
    ensures Inside(p, poly) == (Inside(p, poly[i..j + 1]) != Inside(p, poly[j..] + poly[..i + 1]))
  {
    EdgeTestSymmetric(p);
    var e := EdgeTest(p);
    hide Inside, EdgeTest, CycleParity, PathParity;
    var a, b := poly[i..j + 1], poly[j + 1..] + poly[..i];
    CutApart(poly, i, j);
    CycleRotates(e, poly[..i], poly[i..]);
    if b == [] {
      SmallSplit(p, poly, i, j);
    } else {
      CycleSplits(e, a, b);
    }
    InsideIs(p, poly);
    InsideIs(p, a);
    InsideIs(p, poly[j..] + poly[..i + 1]);
  }

  /** The pieces a diagonal cuts a polygon into. */
  lemma CutApart<T>(poly: seq<T>, i: nat, j: nat)
    requires i < j < |poly|
    ensures var a, b := poly[i..j + 1], poly[j + 1..] + poly[..i];
      && poly == poly[..i] + poly[i..] && poly[i..] + poly[..i] == a + b
      && poly[j..] + poly[..i + 1] == [a[|a| - 1]] + b + [a[0]]
  {
    assert poly[i..] == poly[i..j + 1] + poly[j + 1..];
    assert poly[j..] == [poly[j]] + poly[j + 1..];
    assert poly[..i + 1] == poly[..i] + [poly[i]];
  }

  lemma InsideIs(p: Point, poly: seq<Point>)
    ensures Inside(p, poly) == CycleParity(EdgeTest(p), poly)
  {
  }

  /** The diagonal between the first and the last vertex is an edge: the other
      part has two vertices and no inside. */
  lemma SmallSplit(p: Point, poly: seq<Point>, i: nat, j: nat)
    requires i < j < |poly| && poly[j + 1..] + poly[..i] == []
    ensures CycleParity(EdgeTest(p), poly[i..j + 1]) == CycleParity(EdgeTest(p), poly)
    ensures !CycleParity(EdgeTest(p), poly[j..] + poly[..i + 1])
  {
    assert |poly[j + 1..] + poly[..i]| == 0;
    assert i == 0 && j == |poly| - 1;
    assert poly[i..j + 1] == poly;
    var ends := poly[j..] + poly[..i + 1];
    assert ends == [poly[j], poly[i]];
    TwoVertices(EdgeTest(p), poly[j], poly[i]);
    CrossesSymmetric(p, poly[j], poly[i]);
    hide Crosses, CycleParity;
  }

  lemma PathOfOne(e: (Point, Point) -> bool, v: Point)
    ensures !PathParity(e, [v])
  {
  }

  lemma TwoVertices(e: (Point, Point) -> bool, u: Point, v: Point)
    ensures CycleParity(e, [u, v]) == (e(u, v) != e(v, u))
  {
    assert [u, v] == [u] + [v];
    PathJoin(e, [u], [v]);
    PathOfOne(e, u);
    PathOfOne(e, v);
    hide PathParity;
  }

  function StraddleTest(p: Point): (Point, Point) -> bool { (a, b) => Straddles(p, a, b) }

  function Above(p: Point): Point -> bool { (a: Point) => p.y <= a.y }

  /** An even number of edges straddle the level of any point. */
  lemma StraddlesEven(p: Point, poly: seq<Point>)
    ensures !CycleParity(StraddleTest(p), poly)
  {
    if poly != [] {
      SidesTelescope(StraddleTest(p), Above(p), poly);
    }
  }

  lemma CrossesFromLeft(p: Point, a: Point, b: Point)
    requires p.x < a.x && p.x < b.x
    ensures Crosses(p, a, b) == Straddles(p, a, b)
  {
    CrossesBySide(p, a, b);
    TimesIs(a.x - p.x, b.y - p.y);
    TimesIs(a.y - p.y, b.x - p.x);
    TimesSign(a.x - p.x, b.y - p.y);
    TimesSign(b.x - p.x, a.y - p.y);
    hide Times, Crosses;
  }

  lemma CrossesFromRight(p: Point, a: Point, b: Point)
    requires a.x <= p.x && b.x <= p.x
    ensures !Crosses(p, a, b)
  {
    CrossesBySide(p, a, b);
    TimesIs(a.x - p.x, b.y - p.y);
    TimesIs(a.y - p.y, b.x - p.x);
    TimesSign(p.x - a.x, b.y - p.y);
    TimesSign(p.x - b.x, a.y - p.y);
    TimesNegates(a.x - p.x, b.y - p.y);
    TimesNegates(b.x - p.x, a.y - p.y);
    hide Times, Crosses;
  }

  /** `p` lies outside the bounding box of the vertices. */
  predicate OutsideBox(p: Point, poly: seq<Point>) {
    || (forall v :: v in poly ==> v.x <= p.x)
    || (forall v :: v in poly ==> p.x < v.x)
    || (forall v :: v in poly ==> v.y < p.y)
    || (forall v :: v in poly ==> p.y <= v.y)
  }

  /** Every point outside the bounding box is reported outside. */
  lemma OutsideBoxIsOutside(p: Point, poly: seq<Point>)
    requires OutsideBox(p, poly)
    ensures !Inside(p, poly)
  {
    var e := EdgeTest(p);
    hide Crosses;
    if poly == [] {
    } else if forall v :: v in poly ==> p.x < v.x {
      forall a, b | a in poly && b in poly ensures e(a, b) == StraddleTest(p)(a, b) { CrossesFromLeft(p, a, b); }
      PathAgrees(e, StraddleTest(p), poly);
      StraddlesEven(p, poly);
    } else {
      var none: (Point, Point) -> bool := (a, b) => false;
      forall a, b | a in poly && b in poly ensures e(a, b) == none(a, b) {
        if forall v :: v in poly ==> v.x <= p.x { CrossesFromRight(p, a, b); } else { CrossingStep(p, a, b); }
      }
      PathAgrees(e, none, poly);
      SidesTelescope(none, v => true, poly);
    }
  }

  // ----- what the answer means ------------------------------------------------------

  lemma ThreeVertices(e: (Point, Point) -> bool, a: Point, b: Point, c: Point)
    ensures CycleParity(e, [a, b, c]) == ((e(a, b) != e(b, c)) != e(c, a))
  {
    assert [a, b, c] == ([a] + [b]) + [c];
    PathJoin(e, [a], [b]);
    PathJoin(e, [a] + [b], [c]);
    PathOfOne(e, a);
    PathOfOne(e, b);
    PathOfOne(e, c);
    hide PathParity;
  }

  /** The weighted heights of a triangle's vertices balance around `p`. */
  lemma Balanced(p: Point, a: Point, b: Point, c: Point)
    ensures Times(Orient(p, b, c), p.y - a.y) + Times(Orient(p, c, a), p.y - b.y) + Times(Orient(p, a, b), p.y - c.y)
         == 0.0
  {
    var a1, a2, b1, b2, c1, c2 := a.x - p.x, a.y - p.y, b.x - p.x, b.y - p.y, c.x - p.x, c.y - p.y;
    assert Times(Orient(p, b, c), p.y - a.y) == -((b1 * c2 - b2 * c1) * a2);
    assert Times(Orient(p, c, a), p.y - b.y) == -((c1 * a2 - c2 * a1) * b2);
    assert Times(Orient(p, a, b), p.y - c.y) == -((a1 * b2 - a2 * b1) * c2);
  }

  /** Three products with the signs of a point above two vertices and not above
      the third (or the other way round) cannot balance unless the weights do. */
  lemma WeightsBalance(o1: real, o2: real, o3: real, h1: real, h2: real, h3: real)
    requires Times(o1, h1) + Times(o2, h2) + Times(o3, h3) == 0.0
    requires (h1 > 0.0 && h2 > 0.0 && h3 <= 0.0) || (h1 <= 0.0 && h2 <= 0.0 && h3 > 0.0)
    requires o1 + o2 + o3 > 0.0
    ensures o1 > 0.0 && o2 >= 0.0 ==> o3 >= 0.0
    ensures o2 > 0.0 && o1 >= 0.0 ==> o3 >= 0.0
    ensures !(o1 < 0.0 && o2 <= 0.0) && !(o2 < 0.0 && o1 <= 0.0)
  {
    TimesSign(o1, h1);
    TimesSign(o2, h2);
    TimesSign(o3, h3);
    hide Times;
  }

  lemma AreaSplits(p: Point, a: Point, b: Point, c: Point)
    ensures Orient(p, a, b) + Orient(p, b, c) + Orient(p, c, a) == Orient(a, b, c)
  {
  }

  lemma LevelOrient(p: Point, a: Point, b: Point)
    requires a.y == p.y == b.y
    ensures Orient(p, a, b) == 0.0
  {
  }

  predicate StrictlyIn(p: Point, a: Point, b: Point, c: Point) {
    Orient(p, a, b) > 0.0 && Orient(p, b, c) > 0.0 && Orient(p, c, a) > 0.0
  }

  predicate NotOut(p: Point, a: Point, b: Point, c: Point) {
    Orient(p, a, b) >= 0.0 && Orient(p, b, c) >= 0.0 && Orient(p, c, a) >= 0.0
  }

  /** The triangle test when `c` is the vertex alone on its side of the level. */
  lemma TriangleApart(p: Point, a: Point, b: Point, c: Point)
    requires Orient(a, b, c) > 0.0
    requires Above(p)(a) == Above(p)(b) != Above(p)(c)
    ensures StrictlyIn(p, a, b, c) ==> Inside(p, [a, b, c])
    ensures Inside(p, [a, b, c]) ==> NotOut(p, a, b, c)
  {
    ThreeVertices(EdgeTest(p), a, b, c);
    CrossesBySide(p, a, b); CrossesBySide(p, b, c); CrossesBySide(p, c, a);
    AreaSplits(p, a, b, c);
    Balanced(p, a, b, c);
    hide Orient, Times, Crosses;
    WeightsBalance(Orient(p, b, c), Orient(p, c, a), Orient(p, a, b), p.y - a.y, p.y - b.y, p.y - c.y);
  }

  /** The triangle test when the level misses the triangle. */
  lemma TriangleMissed(p: Point, a: Point, b: Point, c: Point)
    requires Above(p)(a) == Above(p)(b) == Above(p)(c)
    ensures !StrictlyIn(p, a, b, c) && !Inside(p, [a, b, c])
  {
    ThreeVertices(EdgeTest(p), a, b, c);
    CrossesBySide(p, a, b); CrossesBySide(p, b, c); CrossesBySide(p, c, a);
    Balanced(p, a, b, c);
    if a.y == p.y == b.y { LevelOrient(p, a, b); }
    hide Orient, Times, Crosses;
    TimesSign(Orient(p, b, c), p.y - a.y);
    TimesSign(Orient(p, c, a), p.y - b.y);
    TimesSign(Orient(p, a, b), p.y - c.y);
  }

  /** For a counter-clockwise triangle the test says inside for every point
      strictly left of all three sides, and only for points right of none. */
  lemma TriangleTest(p: Point, a: Point, b: Point, c: Point)
    requires Orient(a, b, c) > 0.0
    ensures StrictlyIn(p, a, b, c) ==> Inside(p, [a, b, c])
    ensures Inside(p, [a, b, c]) ==> NotOut(p, a, b, c)
  {
    var fa, fb, fc := Above(p)(a), Above(p)(b), Above(p)(c);
    AreaSplits(a, b, c, a);
    AreaRotates(a, b, c);
    InsideRotates(p, [a, b, c], 1);
    InsideRotates(p, [a, b, c], 2);
    assert [a, b, c][1..] + [a, b, c][..1] == [b, c, a];
    assert [a, b, c][2..] + [a, b, c][..2] == [c, a, b];
    hide Orient, Inside;
    if fa == fb == fc {
      TriangleMissed(p, a, b, c);
    } else if fa == fb {
      TriangleApart(p, a, b, c);
    } else if fb == fc {
      TriangleApart(p, b, c, a);
    } else {
      TriangleApart(p, c, a, b);
    }
  }

  lemma AreaRotates(a: Point, b: Point, c: Point)
    ensures Orient(a, b, c) == Orient(b, c, a) == Orient(c, a, b)
    ensures Orient(c, b, a) == -Orient(a, b, c)
  {
  }

  /** The same for a clockwise triangle, with the sides turned round. */
  lemma TriangleTestClockwise(p: Point, a: Point, b: Point, c: Point)
    requires Orient(a, b, c) < 0.0
    ensures StrictlyIn(p, c, b, a) ==> Inside(p, [a, b, c])
    ensures Inside(p, [a, b, c]) ==> NotOut(p, c, b, a)
  {
    AreaRotates(a, b, c);
    InsideReverses(p, [a, b, c]);
    assert Reversed([a, b, c]) == [c, b, a];
    hide Orient, Inside;
    TriangleTest(p, c, b, a);
  }

  /** An odd number of the triangles fanned out from the first vertex hold `p`. */
  function FanParity(p: Point, poly: seq<Point>): bool {
    var n := |poly|;
    if n < 3 then false
    else FanParity(p, poly[..n - 1]) != Inside(p, [poly[0], poly[n - 2], poly[n - 1]])
  }

  /** The answer for any polygon is the parity of its fan of triangles. */
  lemma {:induction false} InsideIsFanParity(p: Point, poly: seq<Point>)
    requires |poly| >= 2
    ensures Inside(p, poly) == FanParity(p, poly)
  {
    var n := |poly|;
    if n == 2 {
      assert poly == [poly[0], poly[1]];
      TwoVertices(EdgeTest(p), poly[0], poly[1]);
      CrossesSymmetric(p, poly[0], poly[1]);
      hide Crosses, CycleParity;
    } else {
      InsideSplits(p, poly, 0, n - 2);
      InsideIsFanParity(p, poly[..n - 1]);
      var triangle := [poly[0], poly[n - 2], poly[n - 1]];
      InsideRotates(p, triangle, 1);
      assert triangle[1..] + triangle[..1] == poly[n - 2..] + poly[..1];
      assert poly[0..n - 2 + 1] == poly[..n - 1];
      hide Inside;
    }
  }

  // ----- counting points ---------------------------------------------------------------

  /** How many of the points are inside. */
  function PointsInside(poly: seq<Point>, points: seq<Point>): nat {
    if points == [] then 0
    else PointsInside(poly, points[..|points| - 1]) + (if Inside(points[|points| - 1], poly) then 1 else 0)
  }

  /** `getPointsInside`. */
  method GetPointsInside(poly: seq<Point>, points: seq<Point>) returns (num: nat)
    ensures num == PointsInside(poly, points)
  {
    hide Inside;
    num := 0;
    for i := 0 to |points|
      invariant num == PointsInside(poly, points[..i])
    {
      assert points[..i + 1][..i] == points[..i];
      var inside := IsPointInside(poly, points[i]);
      if inside {
        num := num + 1;
      }
    }
    assert points[..|points|] == points;
  }

  /** The positions of the points inside. */
  ghost function InsideAt(poly: seq<Point>, points: seq<Point>): set<nat> {
    set k: nat | k < |points| && Inside(points[k], poly)
  }

  /** The count is the number of points inside. */
  lemma {:induction false} PointsInsideCounts(poly: seq<Point>, points: seq<Point>)
    ensures PointsInside(poly, points) == |InsideAt(poly, points)|
  {
    hide Inside;
    if points == [] {
      assert InsideAt(poly, points) == {};
    } else {
      var n := |points| - 1;
      PointsInsideCounts(poly, points[..n]);
      assert InsideAt(poly, points) == InsideAt(poly, points[..n]) + if Inside(points[n], poly) then {n} else {};
    }
  }

  lemma {:induction false} PointsInsideConcat(poly: seq<Point>, a: seq<Point>, b: seq<Point>)
    ensures PointsInside(poly, a + b) == PointsInside(poly, a) + PointsInside(poly, b)
  {
    hide Inside;
    if b == [] {
      assert a + b == a;
    } else {
      var n := |b| - 1;
      assert (a + b)[..|a| + n] == a + b[..n];
      PointsInsideConcat(poly, a, b[..n]);
    }
  }
}

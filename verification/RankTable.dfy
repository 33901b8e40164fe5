/** The integer distance levels that index the inflation queue
    (`generateIntegerDistances`). */
module RankTable {
  import opened Prelude

  /** A cell offset from an obstacle. */
  datatype Offset = Offset(x: int, y: int)

  function Norm2(p: Offset): nat {
    SquareNonNegative(p.x);
    SquareNonNegative(p.y);
    p.x * p.x + p.y * p.y
  }

  lemma SquareNonNegative(a: int)
    ensures a * a >= 0
  {
  }

  /** `n` is the squared length of some integer offset. */
  ghost predicate IsNorm(n: int) {
    exists p: Offset :: Norm2(p) == n
  }

  /** How many positive squared lengths there are up to `d`.  This is what a
      level means; it does not depend on the radius of the table. */
  ghost function Rank(d: nat): nat {
    if d == 0 then 0 else Rank(d - 1) + (if IsNorm(d) then 1 else 0)
  }

  lemma {:induction false} RankMonotone(a: nat, b: nat)
    requires a <= b
    ensures Rank(a) <= Rank(b)
    decreases b
  {
    if a < b {
      RankMonotone(a, b - 1);
    }
  }

  /** Levels order offsets exactly as their squared lengths do. */
  lemma RankOrder(p: Offset, q: Offset)
    ensures Rank(Norm2(p)) < Rank(Norm2(q)) <==> Norm2(p) < Norm2(q)
    ensures Rank(Norm2(p)) == Rank(Norm2(q)) <==> Norm2(p) == Norm2(q)
  {
    if Norm2(p) < Norm2(q) {
      RankMonotone(Norm2(p), Norm2(q) - 1);
    } else if Norm2(q) < Norm2(p) {
      RankMonotone(Norm2(q), Norm2(p) - 1);
    }
  }

  lemma {:induction false} RankStep(a: nat, b: nat)
    requires a < b && IsNorm(b)
    requires forall n :: a < n < b ==> !IsNorm(n)
    ensures Rank(b) == Rank(a) + 1
  {
    RankConstant(a, b - 1);
  }

  lemma {:induction false} RankConstant(a: nat, b: nat)
    requires a <= b
    requires forall n :: a < n <= b ==> !IsNorm(n)
    ensures Rank(b) == Rank(a)
    decreases b
  {
    if a < b {
      RankConstant(a, b - 1);
    }
  }

  ghost predicate SortedByNorm(s: seq<Offset>) {
    forall i, j :: 0 <= i < j < |s| ==> Norm2(s[i]) <= Norm2(s[j])
  }

  predicate InDisc(p: Offset, r: int) { Norm2(p) <= r * r }

  lemma SquareOrder(a: int, b: int)
    requires 0 <= a <= b
    ensures a * a <= b * b
  {
    assert b * b - a * a == (b - a) * (b + a);
  }

  lemma DiscInSquare(p: Offset, r: int)
    requires r >= 0 && InDisc(p, r)
    ensures -r <= p.x <= r && -r <= p.y <= r
  {
    CoordinateBound(p.x, p.y, r);
    CoordinateBound(p.y, p.x, r);
  }

  lemma CoordinateBound(a: int, b: int, r: int)
    requires r >= 0 && a * a + b * b <= r * r
    ensures -r <= a <= r
  {
    SquareNonNegative(b);
    if a > r {
      SquareExceeds(a, r);
    } else if a < -r {
      SquareExceeds(-a, r);
    }
  }

  lemma SquareExceeds(a: int, r: int)
    requires 0 <= r < a
    ensures a * a > r * r && (-a) * (-a) == a * a
  {
    SquareOrder(r + 1, a);
    assert (r + 1) * (r + 1) == r * r + 2 * r + 1;
  }

  /** `std::sort` with the length comparator: some sorted permutation.
      Equal lengths may come out in any order, and callers know no more. */
  method StdSort(points: seq<Offset>) returns (s: seq<Offset>)
    ensures multiset(s) == multiset(points)
    ensures SortedByNorm(s)
  {
    hide Norm2, SortedInto;
    s := [];
    var rest := points;
    assert SortedInto(points, s, rest) by { NothingSorted(points); }
    while rest != []
      invariant SortedInto(points, s, rest)
      decreases |rest|
    {
      var m := Shortest(rest);
      OneSorted(points, s, rest, m);
      s := s + [rest[m]];
      rest := rest[..m] + rest[m + 1..];
    }
    AllSorted(points, s);
  }

  /** `s` holds the shortest of the points in order, `rest` the others. */
  ghost predicate SortedInto(points: seq<Offset>, s: seq<Offset>, rest: seq<Offset>) {
    && multiset(s) + multiset(rest) == multiset(points) && SortedByNorm(s)
    && forall i, j :: 0 <= i < |s| && 0 <= j < |rest| ==> Norm2(s[i]) <= Norm2(rest[j])
  }

  lemma NothingSorted(points: seq<Offset>)
    ensures SortedInto(points, [], points)
  {
  }

  lemma OneSorted(points: seq<Offset>, s: seq<Offset>, rest: seq<Offset>, m: nat)
    requires SortedInto(points, s, rest) && m < |rest|
    requires forall j :: 0 <= j < |rest| ==> Norm2(rest[m]) <= Norm2(rest[j])
    ensures SortedInto(points, s + [rest[m]], rest[..m] + rest[m + 1..])
  {
    hide Norm2;
    OneApart(rest, m);
    assert multiset(s + [rest[m]]) == multiset(s) + multiset{rest[m]};
  }

  lemma AllSorted(points: seq<Offset>, s: seq<Offset>)
    requires SortedInto(points, s, [])
    ensures multiset(s) == multiset(points) && SortedByNorm(s)
  {
    hide Norm2;
  }

  method Shortest(s: seq<Offset>) returns (m: nat)
    requires s != []
    ensures m < |s| && forall j :: 0 <= j < |s| ==> Norm2(s[m]) <= Norm2(s[j])
  {
    hide Norm2;
    m := 0;
    for i := 1 to |s|
      invariant m < |s| && forall j :: 0 <= j < i ==> Norm2(s[m]) <= Norm2(s[j])
    {
      if Norm2(s[i]) < Norm2(s[m]) {
        m := i;
      }
    }
  }

  lemma SortedCovers(points: seq<Offset>, s: seq<Offset>, p: Offset)
    requires multiset(s) == multiset(points)
    ensures p in s <==> p in points
  {
    assert p in s <==> p in multiset(s);
    assert p in points <==> p in multiset(points);
  }

  method DiscPoints(r: int) returns (points: seq<Offset>)
    requires r >= 0
    ensures forall p :: p in points <==> InDisc(p, r)
  {
    hide Norm2;
    points := [];
    for y := -r to r + 1
      invariant forall p :: p in points <==> InDisc(p, r) && -r <= p.x <= r && -r <= p.y < y
    {
      for x := -r to r + 1
        invariant forall p :: p in points <==>
            InDisc(p, r) && -r <= p.x <= r && (-r <= p.y < y || (p.y == y && p.x < x))
      {
        if Norm2(Offset(x, y)) <= r * r {
          points := points + [Offset(x, y)];
        }
      }
    }
    forall p | InDisc(p, r) ensures p in points { DiscInSquare(p, r); }
  }

  /** The table entry of an offset, for a table of radius `r`. */
  ghost function Level(p: Offset, r: int): nat {
    if InDisc(p, r) then Rank(Norm2(p)) else 0
  }

  lemma SortedCatches(s: seq<Offset>, k: nat, last: nat, n: nat, r: int)
    requires r >= 0 && k < |s| && SortedByNorm(s)
    requires forall p :: p in s <==> InDisc(p, r)
    requires forall j :: 0 <= j < k ==> Norm2(s[j]) <= last
    requires IsNorm(n)
    ensures n <= last || Norm2(s[k]) <= n
  {
    hide Norm2;
    var p: Offset :| Norm2(p) == n;
    assert s[k] in s;
    if n < Norm2(s[k]) {
      assert p in s;
    }
  }

  lemma AxisNorm(r: int)
    ensures Norm2(Offset(r, 0)) == r * r && Rank(0) == 0
  {
  }

  /** Nothing lies strictly between the length last seen and the next one. */
  lemma NoNormBetween(s: seq<Offset>, k: nat, last: nat, r: int)
    requires r >= 0 && k < |s| && SortedByNorm(s)
    requires forall p :: p in s <==> InDisc(p, r)
    requires forall j :: 0 <= j < k ==> Norm2(s[j]) <= last
    requires last < Norm2(s[k])
    ensures Rank(Norm2(s[k])) == Rank(last) + 1
  {
    hide Norm2;
    forall n | last < n < Norm2(s[k]) ensures !IsNorm(n) {
      if IsNorm(n) {
        SortedCatches(s, k, last, n, r);
      }
    }
    RankStep(last, Norm2(s[k]));
  }

  /** `generateIntegerDistances`: every offset within `r = radius + 2` is
      given the rank of its squared length, and the result is the top rank. */
  method GenerateIntegerDistances(radius: nat) returns (level: nat, matrix: array2<nat>)
    ensures fresh(matrix)
    ensures var r: int := radius + 2;
      && matrix.Length0 == matrix.Length1 == 2 * r + 1
      && level == Rank(r * r)
      && forall x, y :: -r <= x <= r && -r <= y <= r ==>
           matrix[x + r, y + r] == Level(Offset(x, y), r)
  {
    hide Norm2, Rank, IsNorm, Levelled, SortedByNorm;
    var r: int := radius + 2;
    var size := r * 2 + 1;
    var points := DiscPoints(r);
    var s := StdSort(points);
    forall p ensures p in s <==> InDisc(p, r) { SortedCovers(points, s, p); }
    matrix := new nat[size, size]((_, _) => 0);
    var last := Offset(0, 0);
    level := 0;
    LevelStart(s, r);
    for k := 0 to |s|
      invariant Levelled(s, k, last, level, r)
      invariant forall x, y :: -r <= x <= r && -r <= y <= r ==>
          matrix[x + r, y + r] == if Offset(x, y) in s[..k] then Rank(Norm2(Offset(x, y))) else 0
    {
      var p := s[k];
      assert p in s;
      DiscInSquare(p, r);
      LevelNext(s, k, last, level, r);
      if Norm2(p) != Norm2(last) {
        level := level + 1;
      }
      matrix[p.x + r, p.y + r] := level;
      last := p;
      assert s[..k + 1] == s[..k] + [p];
    }
    assert s[..|s|] == s;
    LevelEnd(s, last, level, r);
  }

  /** After `k` offsets, the last of them has the level reached. */
  ghost predicate Levelled(s: seq<Offset>, k: nat, last: Offset, level: nat, r: int) {
    && k <= |s| && level == Rank(Norm2(last)) && InDisc(last, r)
    && (forall j :: 0 <= j < k ==> Norm2(s[j]) <= Norm2(last))
    && (forall j :: k <= j < |s| ==> Norm2(last) <= Norm2(s[j]))
  }

  lemma LevelStart(s: seq<Offset>, r: int)
    requires r >= 0
    ensures Levelled(s, 0, Offset(0, 0), 0, r)
  {
    AxisNorm(0);
    SquareNonNegative(r);
    hide Rank, Norm2;
  }

  lemma LevelNext(s: seq<Offset>, k: nat, last: Offset, level: nat, r: int)
    requires Levelled(s, k, last, level, r) && k < |s| && SortedByNorm(s) && r >= 0
    requires forall p :: p in s <==> InDisc(p, r)
    ensures var next := if Norm2(s[k]) != Norm2(last) then level + 1 else level;
      Levelled(s, k + 1, s[k], next, r) && next == Rank(Norm2(s[k]))
  {
    hide Norm2, Rank, IsNorm;
    assert s[k] in s;
    if Norm2(s[k]) != Norm2(last) {
      NoNormBetween(s, k, Norm2(last), r);
    }
  }

  lemma LevelEnd(s: seq<Offset>, last: Offset, level: nat, r: int)
    requires Levelled(s, |s|, last, level, r) && r >= 0
    requires forall p :: p in s <==> InDisc(p, r)
    ensures level == Rank(r * r)
  {
    AxisNorm(r);
    hide Norm2, Rank;
    assert Offset(r, 0) in s;
  }
}

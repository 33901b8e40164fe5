/** The theory of the bucketed brushfire run by `InflationLayer::updateCosts`.

    A run keeps, for every cell already visited, the obstacle it was claimed
    for (its label), and a row of bins of cells still to visit, indexed by the
    rank of their distance to their own obstacle.  This module states what
    every such run keeps, and what holds when the bins are empty.  */
module Brushfire {
  import opened RankTable

  datatype Cell = Cell(x: int, y: int)

  /** A queued cell and the obstacle it is queued for. */
  datatype CellData = CellData(at: Cell, src: Cell)

  /** What one inflation is about: the map, the squared radius, the obstacles found. */
  datatype Task = Task(width: int, height: int, reach: nat, sources: set<Cell>)

  /** The visited cells, each with the obstacle it was claimed for. */
  type Labels = map<Cell, Cell>

  type Bins = seq<seq<CellData>>

  function D2(c: Cell, s: Cell): nat { Norm2(Offset(c.x - s.x, c.y - s.y)) }

  predicate InGrid(f: Task, c: Cell) { 0 <= c.x < f.width && 0 <= c.y < f.height }

  predicate Reaches(f: Task, c: Cell, s: Cell) { D2(c, s) <= f.reach }

  predicate Adjacent(c: Cell, n: Cell) {
    n == Cell(c.x - 1, c.y) || n == Cell(c.x, c.y - 1) || n == Cell(c.x + 1, c.y) || n == Cell(c.x, c.y + 1)
  }

  /** The neighbour of `c` one column nearer to `s`. */
  function ToX(c: Cell, s: Cell): Cell { Cell(if c.x > s.x then c.x - 1 else c.x + 1, c.y) }

  /** The neighbour of `c` one row nearer to `s`. */
  function ToY(c: Cell, s: Cell): Cell { Cell(c.x, if c.y > s.y then c.y - 1 else c.y + 1) }

  /** `n` is one step nearer to `s` than `c` is. */
  predicate StepNearer(c: Cell, n: Cell, s: Cell) {
    (c.x != s.x && n == ToX(c, s)) || (c.y != s.y && n == ToY(c, s))
  }

  /** `c` is `s`, or was reached from a cell labelled `s` one step nearer. */
  predicate Rooted(lab: Labels, c: Cell, s: Cell) {
    c == s
    || (c.x != s.x && ToX(c, s) in lab && lab[ToX(c, s)] == s)
    || (c.y != s.y && ToY(c, s) in lab && lab[ToY(c, s)] == s)
  }

  // ----- distances ------------------------------------------------------

  lemma RankOrderCells(a: Cell, s: Cell, b: Cell, t: Cell)
    ensures Rank(D2(a, s)) < Rank(D2(b, t)) <==> D2(a, s) < D2(b, t)
    ensures Rank(D2(a, s)) == Rank(D2(b, t)) <==> D2(a, s) == D2(b, t)
  {
    RankOrder(Offset(a.x - s.x, a.y - s.y), Offset(b.x - t.x, b.y - t.y));
  }

  lemma ZeroDistance(c: Cell, s: Cell)
    ensures D2(c, s) == 0 <==> c == s
    ensures Rank(D2(c, s)) == 0 <==> c == s
  {
    ZeroNorm(c.x - s.x, c.y - s.y);
    hide Norm2, Rank;
    ZeroNorm(0, 0);
    RankOrderCells(c, s, s, s);
  }

  lemma ZeroNorm(a: int, b: int)
    ensures Norm2(Offset(a, b)) == 0 <==> a == b == 0
    ensures Rank(0) == 0
  {
    if a != 0 {
      PositiveSquare(a, b);
    } else if b != 0 {
      PositiveSquare(b, a);
    }
  }

  lemma PositiveSquare(a: int, b: int)
    requires a != 0
    ensures a * a + b * b > 0
  {
    SquareNonNegative(b);
    if a > 0 { SquareExceeds(a, 0); } else { SquareExceeds(-a, 0); }
  }

  /** How the squared distance changes with one unit step. */
  lemma UnitStep(c: Cell, s: Cell)
    ensures D2(Cell(c.x + 1, c.y), s) == D2(c, s) + 2 * (c.x - s.x) + 1
    ensures D2(Cell(c.x - 1, c.y), s) == D2(c, s) - 2 * (c.x - s.x) + 1
    ensures D2(Cell(c.x, c.y + 1), s) == D2(c, s) + 2 * (c.y - s.y) + 1
    ensures D2(Cell(c.x, c.y - 1), s) == D2(c, s) - 2 * (c.y - s.y) + 1
  {
  }

  lemma NearerIsNearer(c: Cell, n: Cell, s: Cell)
    requires StepNearer(c, n, s)
    ensures D2(n, s) < D2(c, s) && Adjacent(c, n) && Adjacent(n, c)
  {
    hide D2;
    UnitStep(c, s);
  }

  /** A neighbour is either one step nearer, or farther and rooted through `c`. */
  lemma NeighbourKinds(c: Cell, n: Cell, s: Cell)
    requires Adjacent(c, n)
    ensures StepNearer(c, n, s) || (D2(n, s) > D2(c, s) && StepNearer(n, c, s))
  {
    hide D2;
    UnitStep(c, s);
  }

  /** The plane geometry of the main argument, with `s` at the origin and the
      cells in the first quadrant: if `t` claims the corner (x-1,y-1) no
      farther than the origin does, but the origin keeps (x,y-1), then `t` is
      no farther than the origin from (x-1,y) either. */
  lemma Quadrant(x: int, y: int, u: int, v: int)
    requires x >= 1 && y >= 1
    requires Norm2(Offset(x - 1 - u, y - 1 - v)) <= Norm2(Offset(x - 1, y - 1))
    requires Norm2(Offset(x, y - 1)) <= Norm2(Offset(x - u, y - 1 - v))
    ensures Norm2(Offset(x - 1 - u, y - v)) <= Norm2(Offset(x - 1, y))
  {
    Translate(x - 1, y - 1, u, v);
    Translate(x, y - 1, u, v);
    Translate(x - 1, y, u, v);
    hide Norm2;
    if v < 0 {
      NonPositiveProduct(x - 1, u);
      NonPositiveProduct(y - 1, v);
      PositiveSquare(v, u);
      assert false;
    }
  }

  /** Moving the obstacle from the origin to (u,v). */
  lemma Translate(x: int, y: int, u: int, v: int)
    ensures Norm2(Offset(x - u, y - v)) == Norm2(Offset(x, y)) + u * u + v * v - 2 * (x * u) - 2 * (y * v)
    ensures (x + 1) * u == x * u + u && (y + 1) * v == y * v + v
  {
  }

  lemma NonPositiveProduct(a: int, b: int)
    requires a >= 0 && b <= 0
    ensures a * b <= 0
  {
  }

  lemma Mirror(a: int, b: int)
    ensures Norm2(Offset(a, b)) == Norm2(Offset(-a, b)) == Norm2(Offset(a, -b)) == Norm2(Offset(-a, -b))
    ensures Norm2(Offset(a, b)) == Norm2(Offset(b, a))
  {
  }

  /** The squared distance from `c` to `t`, in a frame centred at `s` and
      turned so that `p` lies in the first quadrant. */
  lemma Framed(p: Cell, s: Cell, c: Cell, t: Cell)
    ensures var a := if p.x > s.x then c.x - t.x else t.x - c.x;
      var b := if p.y > s.y then c.y - t.y else t.y - c.y;
      D2(c, t) == Norm2(Offset(a, b)) == Norm2(Offset(b, a))
  {
    hide Norm2;
    var a := if p.x > s.x then c.x - t.x else t.x - c.x;
    var b := if p.y > s.y then c.y - t.y else t.y - c.y;
    Mirror(a, b);
    Mirror(c.x - t.x, c.y - t.y);
  }

  function Corner(p: Cell, s: Cell): Cell { ToX(ToY(p, s), s) }

  /** `Quadrant` for cells: if `t` holds the corner of `p` towards `s` at
      least as near as `s` does, and `s` is at least as near as `t` to one of
      the two steps from `p` to that corner, then `t` is at least as near as
      `s` to the other. */
  lemma CornerLemma(p: Cell, s: Cell, q: Cell, n: Cell, t: Cell)
    requires p.x != s.x && p.y != s.y
    requires {q, n} == {ToX(p, s), ToY(p, s)}
    requires D2(Corner(p, s), t) <= D2(Corner(p, s), s)
    requires D2(q, s) <= D2(q, t)
    ensures D2(n, t) <= D2(n, s)
  {
    var r := Corner(p, s);
    Framed(p, s, r, t); Framed(p, s, r, s);
    Framed(p, s, q, t); Framed(p, s, q, s);
    Framed(p, s, n, t); Framed(p, s, n, s);
    var x := if p.x > s.x then p.x - s.x else s.x - p.x;
    var y := if p.y > s.y then p.y - s.y else s.y - p.y;
    var u := if p.x > s.x then t.x - s.x else s.x - t.x;
    var v := if p.y > s.y then t.y - s.y else s.y - t.y;
    hide Norm2, D2;
    assert ToX(p, s) != ToY(p, s);
    if q == ToY(p, s) {
      assert n == ToX(p, s);
      Quadrant(x, y, u, v);
    } else {
      assert n == ToY(p, s) && q == ToX(p, s);
      Quadrant(y, x, v, u);
    }
  }

  // ----- what every run keeps --------------------------------------------

  /** The entries of bin `b` not read yet, when bin `level` is being read and
      its next entry is number `next`. */
  function Unread(bins: Bins, level: nat, next: nat, b: nat): seq<CellData>
    requires b < |bins|
  {
    if b == level && next <= |bins[b]| then bins[b][next..] else bins[b]
  }

  ghost predicate Pending(bins: Bins, level: nat, next: nat, e: CellData) {
    var b := Rank(D2(e.at, e.src));
    level <= b < |bins| && e in Unread(bins, level, next, b)
  }

  predicate LabelOk(f: Task, lab: Labels, c: Cell, s: Cell) {
    InGrid(f, c) && s in f.sources && Reaches(f, c, s) && Rooted(lab, c, s)
  }

  /** Claimed cells lie within the radius of a real obstacle, and claims
      went by increasing distance. */
  ghost predicate LabelsOk(f: Task, lab: Labels, level: nat) {
    forall c :: c in lab ==> LabelOk(f, lab, c, lab[c]) && Rank(D2(c, lab[c])) <= level
  }

  /** Bins already drained are empty, and what waits is in the right bin. */
  ghost predicate BinsOk(f: Task, lab: Labels, bins: Bins, level: nat, next: nat) {
    && (forall b :: 0 <= b < level && b < |bins| ==> bins[b] == [])
    && (forall b, e :: level <= b < |bins| && e in Unread(bins, level, next, b) ==>
          LabelOk(f, lab, e.at, e.src) && Rank(D2(e.at, e.src)) == b)
  }

  /** Every claimed cell has offered its obstacle to each neighbour. */
  ghost predicate SpreadOk(f: Task, lab: Labels, bins: Bins, level: nat, next: nat) {
    forall c, n :: c in lab && Adjacent(c, n) && InGrid(f, n) && Reaches(f, n, lab[c]) ==>
      Offered(lab, bins, level, next, c, n)
  }

  ghost predicate Offered(lab: Labels, bins: Bins, level: nat, next: nat, c: Cell, n: Cell)
    requires c in lab
  {
    || Pending(bins, level, next, CellData(n, lab[c]))
    || (n in lab && (D2(n, lab[n]) <= D2(n, lab[c]) || D2(n, lab[n]) <= D2(c, lab[c])))
  }

  /** Every obstacle is claimed for itself, or waits to be. */
  ghost predicate SeedsOk(f: Task, lab: Labels, bins: Bins, level: nat, next: nat) {
    forall s :: s in f.sources ==>
      InGrid(f, s) && if s in lab then lab[s] == s else Pending(bins, level, next, CellData(s, s))
  }

  ghost predicate Inv(f: Task, lab: Labels, bins: Bins, level: nat, next: nat) {
    && LabelsOk(f, lab, level)
    && BinsOk(f, lab, bins, level, next)
    && SpreadOk(f, lab, bins, level, next)
    && SeedsOk(f, lab, bins, level, next)
  }

  // ----- no entry ever falls behind ---------------------------------------

  /** One square of the argument: `q` and the corner `r` are claimed, so the
      remaining step `n` is claimed too, and no farther off than `s`. */
  lemma SquareCloses(f: Task, lab: Labels, bins: Bins, level: nat, next: nat, p: Cell, s: Cell, q: Cell, n: Cell)
    requires Inv(f, lab, bins, level, next)
    requires InGrid(f, p) && InGrid(f, s) && Reaches(f, p, s) && Rank(D2(p, s)) <= level
    requires p.x != s.x && p.y != s.y
    requires {q, n} == {ToX(p, s), ToY(p, s)}
    requires q in lab && lab[q] == s
    requires var r := Corner(p, s); r in lab && D2(r, lab[r]) <= D2(r, s)
    ensures n in lab && D2(n, lab[n]) <= D2(n, s)
  {
    hide D2, Rank, BinsOk, SeedsOk, Rooted;
    var r := Corner(p, s);
    var t := lab[r];
    NearerIsNearer(p, q, s);
    NearerIsNearer(p, n, s);
    NearerIsNearer(q, r, s);
    NearerIsNearer(n, r, s);
    assert D2(q, s) <= D2(q, t) by {
      if Reaches(f, q, t) {
        assert Offered(lab, bins, level, next, r, q);
        RankOrderCells(q, s, q, t);
      }
    }
    CornerLemma(p, s, q, n, t);
    RankOrderCells(n, t, p, s);
    assert Offered(lab, bins, level, next, r, n);
  }

  /** If `p` carries the label `s`, or is about to, then each neighbour of
      `p` nearer to `s` is already claimed, no farther off than `s`. */
  lemma {:induction false} NearerSeen(f: Task, lab: Labels, bins: Bins, level: nat, next: nat, p: Cell, s: Cell,
                                      n: Cell)
    requires Inv(f, lab, bins, level, next)
    requires InGrid(f, p) && s in f.sources && Reaches(f, p, s) && Rank(D2(p, s)) <= level
    requires Rooted(lab, p, s) && StepNearer(p, n, s)
    ensures n in lab && D2(n, lab[n]) <= D2(n, s)
    decreases D2(p, s)
  {
    hide D2, Rank, Inv, Rooted, StepNearer, Corner, ToX, ToY;
    if n !in lab || lab[n] != s {
      var q := if n == ToX(p, s) && p.x != s.x then ToY(p, s) else ToX(p, s);
      RootIsOther(f, lab, bins, level, next, p, s, q, n);
      NearerIsNearer(p, q, s);
      NearerSeen(f, lab, bins, level, next, q, s, Corner(p, s));
      SquareCloses(f, lab, bins, level, next, p, s, q, n);
    }
  }

  lemma RootIsOther(f: Task, lab: Labels, bins: Bins, level: nat, next: nat, p: Cell, s: Cell, q: Cell, n: Cell)
    requires Inv(f, lab, bins, level, next) && s in f.sources
    requires Rooted(lab, p, s) && StepNearer(p, n, s)
    requires n !in lab || lab[n] != s
    requires q == if n == ToX(p, s) && p.x != s.x then ToY(p, s) else ToX(p, s)
    ensures p.x != s.x && p.y != s.y && {q, n} == {ToX(p, s), ToY(p, s)}
    ensures q in lab && lab[q] == s && Rooted(lab, q, s) && InGrid(f, q) && Reaches(f, q, s)
    ensures Rank(D2(q, s)) <= level && InGrid(f, s)
    ensures StepNearer(p, q, s) && StepNearer(q, Corner(p, s), s)
  {
    hide D2, Rank;
  }

  // ----- the steps of a run -------------------------------------------------

  /** The effect of `enqueue` on the bins: push unless visited or too far. */
  ghost function Enqueued(f: Task, lab: Labels, bins: Bins, e: CellData): Bins {
    var b := Rank(D2(e.at, e.src));
    if e.at in lab || !Reaches(f, e.at, e.src) || b >= |bins| then bins
    else bins[b := bins[b] + [e]]
  }

  /** There is a bin for every distance within the radius. */
  ghost predicate Sized(f: Task, bins: Bins) {
    forall c, s :: Reaches(f, c, s) ==> Rank(D2(c, s)) < |bins|
  }

  /** `bins` is `was` after `m`, claimed for `s`, has offered `s` to the cells
      in `offered`. */
  ghost predicate Grown(f: Task, lab: Labels, was: Bins, bins: Bins, m: Cell, s: Cell, offered: set<Cell>) {
    && |bins| == |was|
    && (forall b :: 0 <= b < |bins| ==> was[b] <= bins[b])
    && (forall b, e :: 0 <= b < |bins| && e in bins[b][|was[b]|..] ==> NewEntry(f, lab, m, s, b, e))
    && (forall n :: n in offered && InGrid(f, n) && n !in lab && Reaches(f, n, s) ==>
          var b := Rank(D2(n, s)); b < |bins| && CellData(n, s) in bins[b][|was[b]|..])
  }

  ghost predicate NewEntry(f: Task, lab: Labels, m: Cell, s: Cell, b: nat, e: CellData) {
    && e.src == s && Adjacent(m, e.at) && InGrid(f, e.at) && e.at !in lab
    && Reaches(f, e.at, s) && Rank(D2(e.at, s)) == b
  }

  lemma GrowOne(f: Task, lab: Labels, was: Bins, bins: Bins, m: Cell, s: Cell, offered: set<Cell>, n: Cell)
    requires Grown(f, lab, was, bins, m, s, offered)
    requires Adjacent(m, n) && InGrid(f, n) && Sized(f, bins)
    ensures Grown(f, lab, was, Enqueued(f, lab, bins, CellData(n, s)), m, s, offered + {n})
  {
    hide D2, Rank;
    var e := CellData(n, s);
    var b := Rank(D2(n, s));
    if n !in lab && Reaches(f, n, s) {
      assert (bins[b] + [e])[|was[b]|..] == bins[b][|was[b]|..] + [e];
    }
  }

  lemma GrowOutside(f: Task, lab: Labels, was: Bins, bins: Bins, m: Cell, s: Cell, offered: set<Cell>, n: Cell)
    requires Grown(f, lab, was, bins, m, s, offered)
    requires !InGrid(f, n)
    ensures Grown(f, lab, was, bins, m, s, offered + {n})
  {
    hide D2, Rank;
  }

  /** The safety property the code checks for at the start of each cycle: an
      unvisited neighbour always goes into a bin still to come, so nothing is
      ever left behind in a drained bin and no bin grows while it is read. */
  lemma NeverBehind(f: Task, lab: Labels, bins: Bins, level: nat, next: nat, m: Cell, s: Cell, n: Cell)
    requires Inv(f, lab, bins, level, next)
    requires LabelOk(f, lab, m, s) && Rank(D2(m, s)) == level
    requires Adjacent(m, n) && n !in lab
    ensures Rank(D2(n, s)) > level && StepNearer(n, m, s)
  {
    hide D2, Rank, Inv;
    NeighbourKinds(m, n, s);
    if StepNearer(m, n, s) {
      NearerSeen(f, lab, bins, level, next, m, s, n);
    }
    RankOrderCells(m, s, n, s);
  }

  lemma PendingStays(was: Bins, bins: Bins, level: nat, next: nat, e: CellData)
    requires level < |was| == |bins| && next < |was[level]| && was[level] == bins[level]
    requires forall b :: 0 <= b < |bins| ==> was[b] <= bins[b]
    requires Pending(was, level, next, e)
    ensures Pending(bins, level, next + 1, e) || e == was[level][next]
  {
    hide D2, Rank;
    var b := Rank(D2(e.at, e.src));
    if b == level {
      assert was[level][next..] == [was[level][next]] + was[level][next + 1..];
    } else {
      assert e in was[b] && was[b] <= bins[b];
      assert e in bins[b];
    }
  }

  lemma RootedGrows(lab: Labels, m: Cell, s: Cell, c: Cell, t: Cell)
    requires m !in lab && Rooted(lab, c, t)
    ensures Rooted(lab[m := s], c, t)
  {
  }

  lemma RootedThrough(lab: Labels, m: Cell, s: Cell, n: Cell)
    requires StepNearer(n, m, s)
    ensures Rooted(lab[m := s], n, s)
  {
  }

  /** One claim: the popped cell is new, and offers its obstacle around. */
  ghost predicate Claims(f: Task, lab: Labels, was: Bins, bins: Bins, level: nat, next: nat, offered: set<Cell>) {
    && level < |was| && next < |was[level]|
    && Inv(f, lab, was, level, next)
    && var e := was[level][next];
    && e.at !in lab
    && Grown(f, lab[e.at := e.src], was, bins, e.at, e.src, offered)
    && (forall n :: Adjacent(e.at, n) ==> n in offered)
  }

  lemma PoppedOk(f: Task, lab: Labels, bins: Bins, level: nat, next: nat)
    requires BinsOk(f, lab, bins, level, next)
    requires level < |bins| && next < |bins[level]|
    ensures var e := bins[level][next]; LabelOk(f, lab, e.at, e.src) && Rank(D2(e.at, e.src)) == level
  {
    hide D2, Rank;
    assert bins[level][next] == bins[level][next..][0];
    assert bins[level][next] in Unread(bins, level, next, level);
  }

  lemma NewEntryAhead(f: Task, lab: Labels, was: Bins, bins: Bins, level: nat, next: nat, offered: set<Cell>, b: nat,
                      x: CellData)
    requires Claims(f, lab, was, bins, level, next, offered)
    requires b < |bins| && x in bins[b][|was[b]|..]
    ensures b > level
    ensures var e := was[level][next]; LabelOk(f, lab[e.at := e.src], x.at, x.src) && Rank(D2(x.at, x.src)) == b
  {
    hide D2, Rank, Inv, Rooted;
    var e := was[level][next];
    assert NewEntry(f, lab[e.at := e.src], e.at, e.src, b, x);
    assert BinsOk(f, lab, was, level, next) by { InvParts(f, lab, was, level, next); }
    PoppedOk(f, lab, was, level, next);
    NeverBehind(f, lab, was, level, next, e.at, e.src, x.at);
    RootedThrough(lab, e.at, e.src, x.at);
  }

  lemma InvParts(f: Task, lab: Labels, bins: Bins, level: nat, next: nat)
    requires Inv(f, lab, bins, level, next)
    ensures LabelsOk(f, lab, level) && BinsOk(f, lab, bins, level, next)
    ensures SpreadOk(f, lab, bins, level, next) && SeedsOk(f, lab, bins, level, next)
  {
  }

  lemma OnlyAhead(f: Task, lab: Labels, was: Bins, bins: Bins, level: nat, next: nat, offered: set<Cell>)
    requires Claims(f, lab, was, bins, level, next, offered)
    ensures forall b :: 0 <= b <= level ==> bins[b] == was[b]
  {
    hide D2, Rank, Inv;
    forall b | 0 <= b <= level ensures bins[b] == was[b] {
      if |bins[b]| > |was[b]| {
        var x := bins[b][|was[b]|..][0];
        NewEntryAhead(f, lab, was, bins, level, next, offered, b, x);
      }
    }
  }

  lemma ClaimKeepsLabels(f: Task, lab: Labels, was: Bins, bins: Bins, level: nat, next: nat, offered: set<Cell>)
    requires Claims(f, lab, was, bins, level, next, offered)
    ensures var e := was[level][next]; LabelsOk(f, lab[e.at := e.src], level)
  {
    hide D2, Rank, Rooted;
    var e := was[level][next];
    PoppedOk(f, lab, was, level, next);
    var lab' := lab[e.at := e.src];
    RootedGrows(lab, e.at, e.src, e.at, e.src);
    forall c | c in lab ensures Rooted(lab', c, lab[c]) {
      RootedGrows(lab, e.at, e.src, c, lab[c]);
    }
  }

  lemma AddedLater<T>(was: seq<T>, now: seq<T>, x: T)
    requires was <= now && x in now && x !in was
    ensures x in now[|was|..]
  {
    assert now == was + now[|was|..];
  }

  lemma ClaimKeepsBins(f: Task, lab: Labels, was: Bins, bins: Bins, level: nat, next: nat, offered: set<Cell>)
    requires Claims(f, lab, was, bins, level, next, offered)
    ensures var e := was[level][next]; BinsOk(f, lab[e.at := e.src], bins, level, next + 1)
  {
    hide D2, Rank, Rooted, Inv;
    InvParts(f, lab, was, level, next);
    var e := was[level][next];
    var lab' := lab[e.at := e.src];
    OnlyAhead(f, lab, was, bins, level, next, offered);
    forall b: nat, x {:trigger x in Unread(bins, level, next + 1, b)}
      | level <= b < |bins| && x in Unread(bins, level, next + 1, b)
      ensures LabelOk(f, lab', x.at, x.src) && Rank(D2(x.at, x.src)) == b
    {
      if b > level && x !in was[b] {
        AddedLater(was[b], bins[b], x);
        NewEntryAhead(f, lab, was, bins, level, next, offered, b, x);
      } else {
        if b == level { UnreadAfter(was, level, next, b, x); }
        assert x in Unread(was, level, next, b);
        RootedGrows(lab, e.at, e.src, x.at, x.src);
      }
    }
  }

  lemma ClaimKeepsSpread(f: Task, lab: Labels, was: Bins, bins: Bins, level: nat, next: nat, offered: set<Cell>)
    requires Claims(f, lab, was, bins, level, next, offered)
    ensures var e := was[level][next]; SpreadOk(f, lab[e.at := e.src], bins, level, next + 1)
  {
    hide D2, Rank, Rooted, Inv;
    InvParts(f, lab, was, level, next);
    var e := was[level][next];
    var lab' := lab[e.at := e.src];
    OnlyAhead(f, lab, was, bins, level, next, offered);
    PoppedOk(f, lab, was, level, next);
    forall c, n | c in lab' && Adjacent(c, n) && InGrid(f, n) && Reaches(f, n, lab'[c])
      ensures Offered(lab', bins, level, next + 1, c, n)
    {
      if c == e.at {
        if n in lab' {
          RankOrderCells(e.at, e.src, n, lab'[n]);
        } else {
          NeverBehind(f, lab, was, level, next, e.at, e.src, n);
          var b := Rank(D2(n, e.src));
          assert CellData(n, e.src) in bins[b][|was[b]|..];
        }
      } else {
        assert Offered(lab, was, level, next, c, n);
        if Pending(was, level, next, CellData(n, lab[c])) {
          PendingStays(was, bins, level, next, CellData(n, lab[c]));
        }
      }
    }
  }

  lemma ClaimKeepsSeeds(f: Task, lab: Labels, was: Bins, bins: Bins, level: nat, next: nat, offered: set<Cell>)
    requires Claims(f, lab, was, bins, level, next, offered)
    ensures var e := was[level][next]; SeedsOk(f, lab[e.at := e.src], bins, level, next + 1)
  {
    hide D2, Rank, Rooted, Inv;
    InvParts(f, lab, was, level, next);
    var e := was[level][next];
    OnlyAhead(f, lab, was, bins, level, next, offered);
    PoppedOk(f, lab, was, level, next);
    forall s | s in f.sources && s !in lab
      ensures s == e.at ==> e.src == s
      ensures s != e.at ==> Pending(bins, level, next + 1, CellData(s, s))
    {
      PendingStays(was, bins, level, next, CellData(s, s));
      ZeroDistance(s, s);
      ZeroDistance(e.at, e.src);
    }
  }

  lemma ClaimKeepsInv(f: Task, lab: Labels, was: Bins, bins: Bins, level: nat, next: nat, offered: set<Cell>)
    requires Claims(f, lab, was, bins, level, next, offered)
    ensures var e := was[level][next]; Inv(f, lab[e.at := e.src], bins, level, next + 1)
    ensures bins[level] == was[level]
  {
    hide Claims, LabelsOk, BinsOk, SpreadOk, SeedsOk;
    ClaimKeepsLabels(f, lab, was, bins, level, next, offered);
    ClaimKeepsBins(f, lab, was, bins, level, next, offered);
    ClaimKeepsSpread(f, lab, was, bins, level, next, offered);
    ClaimKeepsSeeds(f, lab, was, bins, level, next, offered);
    OnlyAhead(f, lab, was, bins, level, next, offered);
  }

  /** Reading on past an entry: everything else that waited still waits. */
  lemma UnreadAfter(bins: Bins, level: nat, next: nat, b: nat, x: CellData)
    requires level < |bins| && next < |bins[level]| && b < |bins|
    requires x in Unread(bins, level, next + 1, b)
    ensures x in Unread(bins, level, next, b)
  {
    if b == level {
      assert bins[level][next..] == [bins[level][next]] + bins[level][next + 1..];
    }
  }

  lemma SkipKeepsSpread(f: Task, lab: Labels, bins: Bins, level: nat, next: nat)
    requires Inv(f, lab, bins, level, next)
    requires level < |bins| && next < |bins[level]| && bins[level][next].at in lab
    ensures SpreadOk(f, lab, bins, level, next + 1)
  {
    hide D2, Rank, Rooted;
    var e := bins[level][next];
    PoppedOk(f, lab, bins, level, next);
    RankOrderCells(e.at, lab[e.at], e.at, e.src);
    forall c, n | c in lab && Adjacent(c, n) && InGrid(f, n) && Reaches(f, n, lab[c])
      ensures Offered(lab, bins, level, next + 1, c, n)
    {
      assert Offered(lab, bins, level, next, c, n);
      if Pending(bins, level, next, CellData(n, lab[c])) {
        PendingStays(bins, bins, level, next, CellData(n, lab[c]));
      }
    }
  }

  lemma SkipKeepsBins(f: Task, lab: Labels, bins: Bins, level: nat, next: nat)
    requires BinsOk(f, lab, bins, level, next)
    requires level < |bins| && next < |bins[level]|
    ensures BinsOk(f, lab, bins, level, next + 1)
  {
    hide LabelOk;
    forall b: nat, x {:trigger x in Unread(bins, level, next + 1, b)}
      | level <= b < |bins| && x in Unread(bins, level, next + 1, b)
      ensures x in Unread(bins, level, next, b)
    {
      UnreadAfter(bins, level, next, b, x);
    }
  }

  /** A popped entry whose cell is already claimed is simply dropped. */
  lemma SkipKeepsInv(f: Task, lab: Labels, bins: Bins, level: nat, next: nat)
    requires Inv(f, lab, bins, level, next)
    requires level < |bins| && next < |bins[level]| && bins[level][next].at in lab
    ensures Inv(f, lab, bins, level, next + 1)
  {
    hide D2, Rank, Rooted, SpreadOk, BinsOk, LabelsOk;
    SkipKeepsSpread(f, lab, bins, level, next);
    SkipKeepsBins(f, lab, bins, level, next);
    forall s | s in f.sources && s !in lab ensures Pending(bins, level, next + 1, CellData(s, s)) {
      PendingStays(bins, bins, level, next, CellData(s, s));
    }
  }

  lemma NextBinKeepsInv(f: Task, lab: Labels, bins: Bins, level: nat)
    requires level < |bins| && Inv(f, lab, bins, level, |bins[level]|)
    ensures Inv(f, lab, bins[level := []], level + 1, 0)
  {
    hide D2, Rank, Rooted;
    var next := |bins[level]|;
    var bins' := bins[level := []];
    forall x | Pending(bins, level, next, x) ensures Pending(bins', level + 1, 0, x) {
    }
    forall c, n | c in lab && Adjacent(c, n) && InGrid(f, n) && Reaches(f, n, lab[c])
      ensures Offered(lab, bins', level + 1, 0, c, n)
    {
      assert Offered(lab, bins, level, next, c, n);
    }
    forall b: nat, x {:trigger x in Unread(bins', level + 1, 0, b)}
      | level + 1 <= b < |bins| && x in Unread(bins', level + 1, 0, b)
      ensures LabelOk(f, lab, x.at, x.src) && Rank(D2(x.at, x.src)) == b
    {
      assert x in Unread(bins, level, next, b);
    }
  }

  /** The state the loop starts from: every obstacle queued for itself. */
  lemma StartInv(f: Task, bins: Bins)
    requires |bins| > 0 && forall b :: 0 < b < |bins| ==> bins[b] == []
    requires forall e :: e in bins[0] <==> e.at == e.src && e.at in f.sources
    requires forall s :: s in f.sources ==> InGrid(f, s)
    ensures Inv(f, map[], bins, 0, 0)
  {
    hide D2, Rank;
    forall s | s in f.sources ensures Rank(D2(s, s)) == 0 && Reaches(f, s, s) {
      ZeroDistance(s, s);
    }
    forall b: nat, e {:trigger e in Unread(bins, 0, 0, b)} | b < |bins| && e in Unread(bins, 0, 0, b)
      ensures LabelOk(f, map[], e.at, e.src) && Rank(D2(e.at, e.src)) == b
    {
      assert e in bins[b];
    }
    forall s | s in f.sources ensures Pending(bins, 0, 0, CellData(s, s)) {
      assert CellData(s, s) in Unread(bins, 0, 0, 0);
    }
  }

  // ----- what holds when the bins are empty ----------------------------------

  /** The outcome of a run: every label is a real obstacle within the radius,
      every obstacle keeps its own cell, and no neighbour of a claimed cell
      would be better served by that cell's obstacle. */
  ghost predicate Settled(f: Task, lab: Labels) {
    && (forall c {:trigger LabelOk(f, lab, c, lab[c])} :: c in lab ==> LabelOk(f, lab, c, lab[c]))
    && (forall s :: s in f.sources ==> InGrid(f, s) && s in lab && lab[s] == s)
    && (forall c, n :: c in lab && Adjacent(c, n) && InGrid(f, n) && Reaches(f, n, lab[c]) ==>
          ServedAsWell(lab, n, lab[c]))
  }

  predicate ServedAsWell(lab: Labels, n: Cell, t: Cell) { n in lab && D2(n, lab[n]) <= D2(n, t) }

  lemma DrainedIsSettled(f: Task, lab: Labels, bins: Bins)
    requires Inv(f, lab, bins, |bins|, 0)
    ensures Settled(f, lab)
    ensures forall b :: 0 <= b < |bins| ==> bins[b] == []
  {
    hide D2, Rank, Rooted;
    forall c, n | c in lab && Adjacent(c, n) && InGrid(f, n) && Reaches(f, n, lab[c])
      ensures ServedAsWell(lab, n, lab[c])
    {
      assert Offered(lab, bins, |bins|, 0, c, n);
      NeighbourKinds(c, n, lab[c]);
      if StepNearer(c, n, lab[c]) {
        NearerSeen(f, lab, bins, |bins|, 0, c, lab[c], n);
      }
    }
  }

  /** The obstacle nearest to `c`, when it is the only one that near. */
  ghost predicate OnlyNearest(f: Task, c: Cell, s: Cell) {
    s in f.sources && forall t :: t in f.sources && t != s ==> D2(c, s) < D2(c, t)
  }

  /** `s` can be reached from `c` by steps nearer to `s`, all of them inside
      the region that `s` alone is nearest to. */
  ghost predicate OwnPath(f: Task, c: Cell, s: Cell)
    decreases D2(c, s)
  {
    && OnlyNearest(f, c, s) && InGrid(f, c)
    && (c == s
        || (c.x != s.x && (NearerIsNearer(c, ToX(c, s), s); OwnPath(f, ToX(c, s), s)))
        || (c.y != s.y && (NearerIsNearer(c, ToY(c, s), s); OwnPath(f, ToY(c, s), s))))
  }

  /** Many obstacles: the distance is exact wherever such a path exists. */
  lemma {:induction false} ExactOnOwnPath(f: Task, lab: Labels, c: Cell, s: Cell)
    requires Settled(f, lab) && OwnPath(f, c, s) && Reaches(f, c, s)
    ensures c in lab && lab[c] == s
    decreases D2(c, s)
  {
    hide D2, Rooted;
    if c != s {
      var q := if c.x != s.x && OwnPath(f, ToX(c, s), s) then ToX(c, s) else ToY(c, s);
      NearerIsNearer(c, q, s);
      ExactOnOwnPath(f, lab, q, s);
      assert ServedAsWell(lab, c, s);
      assert LabelOk(f, lab, c, lab[c]);
    }
  }

  /** No obstacle is nearer to `c` than `s`; others may be as near. */
  ghost predicate Nearest(f: Task, c: Cell, s: Cell) {
    s in f.sources && forall t :: t in f.sources ==> D2(c, s) <= D2(c, t)
  }

  /** Whatever is nearest to `q` is nearest to `c` too. */
  ghost predicate PassesOn(f: Task, q: Cell, c: Cell) { forall t :: Nearest(f, q, t) ==> Nearest(f, c, t) }

  /** `s` can be reached from `c` by steps nearer to `s`, over cells that `s` is
      nearest to, each passing on all its nearest obstacles: ties are allowed
      where they stay ties. */
  ghost predicate SafeWay(f: Task, c: Cell, s: Cell)
    decreases D2(c, s)
  {
    && Nearest(f, c, s) && InGrid(f, c)
    && (c == s
        || (c.x != s.x && PassesOn(f, ToX(c, s), c) && (NearerIsNearer(c, ToX(c, s), s); SafeWay(f, ToX(c, s), s)))
        || (c.y != s.y && PassesOn(f, ToY(c, s), c) && (NearerIsNearer(c, ToY(c, s), s); SafeWay(f, ToY(c, s), s))))
  }

  /** Many obstacles, ties or not: the distance is the least one wherever such a
      way exists. */
  lemma {:induction false} ExactOnSafeWay(f: Task, lab: Labels, c: Cell, s: Cell)
    requires Settled(f, lab) && SafeWay(f, c, s) && Reaches(f, c, s)
    ensures c in lab && Nearest(f, c, lab[c])
    decreases D2(c, s)
  {
    hide D2, Rooted, PassesOn;
    if c == s {
      ZeroDistance(s, s);
    } else {
      var q := if c.x != s.x && PassesOn(f, ToX(c, s), c) && SafeWay(f, ToX(c, s), s) then ToX(c, s) else ToY(c, s);
      NearerIsNearer(c, q, s);
      ExactOnSafeWay(f, lab, q, s);
      PassedOn(f, q, c, lab[q]);
      NearestServes(f, lab, c, q, s);
    }
  }

  lemma PassedOn(f: Task, q: Cell, c: Cell, t: Cell)
    requires PassesOn(f, q, c) && Nearest(f, q, t)
    ensures Nearest(f, c, t)
  {
    hide Nearest;
  }

  /** A neighbour labelled with one of the nearest obstacles of `c` serves `c` well. */
  lemma NearestServes(f: Task, lab: Labels, c: Cell, q: Cell, s: Cell)
    requires Settled(f, lab) && InGrid(f, c) && Nearest(f, c, s) && Reaches(f, c, s)
    requires q in lab && Adjacent(q, c) && Nearest(f, c, lab[q])
    ensures c in lab && Nearest(f, c, lab[c])
  {
    hide D2, Rooted;
    assert Reaches(f, c, lab[q]);
    assert ServedAsWell(lab, c, lab[q]);
    assert LabelOk(f, lab, c, lab[c]);
  }

  /** The way through an obstacle's own region is a safe one. */
  lemma {:induction false} OwnPathIsSafe(f: Task, c: Cell, s: Cell)
    requires OwnPath(f, c, s)
    ensures SafeWay(f, c, s)
    decreases D2(c, s)
  {
    hide D2;
    if c != s {
      var q := if c.x != s.x && OwnPath(f, ToX(c, s), s) then ToX(c, s) else ToY(c, s);
      NearerIsNearer(c, q, s);
      OwnPathIsSafe(f, q, s);
      assert PassesOn(f, q, c) by { OnlyPassesOn(f, q, c, s); }
      NearerIsNearer(c, q, s);
    }
  }

  lemma OnlyPassesOn(f: Task, q: Cell, c: Cell, s: Cell)
    requires OnlyNearest(f, q, s) && OnlyNearest(f, c, s)
    ensures PassesOn(f, q, c)
  {
    hide D2;
  }

  /** Exactly when a cell ends with its only nearest obstacle: when it is that
      obstacle, or when a neighbour one step nearer ends with it too. */
  lemma NearestKeptIff(f: Task, lab: Labels, c: Cell, s: Cell)
    requires Settled(f, lab) && InGrid(f, c) && OnlyNearest(f, c, s) && Reaches(f, c, s)
    ensures (c in lab && lab[c] == s) <==> Rooted(lab, c, s)
  {
    hide D2;
    if c in lab {
      assert LabelOk(f, lab, c, lab[c]);
    }
    if c != s && Rooted(lab, c, s) {
      var q := if c.x != s.x && ToX(c, s) in lab && lab[ToX(c, s)] == s then ToX(c, s) else ToY(c, s);
      NearerIsNearer(c, q, s);
      assert ServedAsWell(lab, c, s);
    }
  }

  /** Every cell that an obstacle reaches has a single nearest obstacle. */
  ghost predicate NoTies(f: Task) {
    forall c, t :: InGrid(f, c) && t in f.sources && Reaches(f, c, t) ==> exists s :: OnlyNearest(f, c, s)
  }

  /** The obstacle `s` is due to the cell `c`. */
  ghost predicate Due(f: Task, c: Cell, s: Cell) { InGrid(f, c) && OnlyNearest(f, c, s) && Reaches(f, c, s) }

  /** Every cell can be reached from the obstacle it is due through that
      obstacle's own region. */
  ghost predicate Connected(f: Task) { forall c, s :: Due(f, c, s) ==> OwnPath(f, c, s) }

  /** Every cell ends with the obstacle it is due. */
  ghost predicate Exact(f: Task, lab: Labels) { forall c, s :: Due(f, c, s) ==> c in lab && lab[c] == s }

  /** Without ties the brushfire is exact if and only if the obstacles' own
      regions, within the radius, are connected to them by nearer and nearer
      cells: a condition on the map alone. */
  lemma ExactIffConnected(f: Task, lab: Labels)
    requires Settled(f, lab) && NoTies(f)
    ensures Exact(f, lab) <==> Connected(f)
  {
    hide D2, Settled, OwnPath;
    if Connected(f) {
      forall c, s | Due(f, c, s) ensures c in lab && lab[c] == s {
        ExactOnOwnPath(f, lab, c, s);
      }
    }
    if Exact(f, lab) {
      forall c, s | Due(f, c, s) ensures OwnPath(f, c, s) {
        ExactNeedsOwnPath(f, lab, c, s);
      }
    }
  }

  lemma {:induction false} ExactNeedsOwnPath(f: Task, lab: Labels, c: Cell, s: Cell)
    requires Settled(f, lab) && NoTies(f) && Exact(f, lab) && Due(f, c, s)
    ensures OwnPath(f, c, s)
    decreases D2(c, s)
  {
    hide D2, Settled, OnlyNearest;
    if c != s {
      NearestKeptIff(f, lab, c, s);
      var q := if c.x != s.x && ToX(c, s) in lab && lab[ToX(c, s)] == s then ToX(c, s) else ToY(c, s);
      NearerIsNearer(c, q, s);
      ExactLabelIsDue(f, lab, q);
      ExactNeedsOwnPath(f, lab, q, s);
      NearerIsNearer(c, if q == ToX(c, s) then ToX(c, s) else ToY(c, s), s);
    } else {
      hide OwnPath;
      OwnPathAtSource(f, c);
    }
  }

  lemma OwnPathAtSource(f: Task, c: Cell)
    requires OnlyNearest(f, c, c) && InGrid(f, c)
    ensures OwnPath(f, c, c)
  {
    hide D2, OnlyNearest;
  }

  /** In an exact run the label of a cell is the obstacle the cell is due. */
  lemma ExactLabelIsDue(f: Task, lab: Labels, q: Cell)
    requires Settled(f, lab) && NoTies(f) && Exact(f, lab) && q in lab
    ensures Due(f, q, lab[q])
  {
    hide D2, Rooted;
    assert LabelOk(f, lab, q, lab[q]);
    var s :| OnlyNearest(f, q, s);
    assert Reaches(f, q, s) by {
      if s != lab[q] { assert D2(q, s) < D2(q, lab[q]); }
    }
    assert Due(f, q, s);
  }

  /** Three obstacles for which no run is exact: both ways to (3,3) from its
      nearest obstacle belong to the other two. */
  const THREE_OBSTACLES: set<Cell> := {Cell(1, 1), Cell(0, 3), Cell(3, 0)}

  lemma ThreeObstaclesInexact(f: Task, lab: Labels)
    requires f.width >= 4 && f.height >= 4 && f.reach >= 9 && f.sources == THREE_OBSTACLES
    requires Settled(f, lab)
    ensures OnlyNearest(f, Cell(3, 3), Cell(1, 1)) && D2(Cell(3, 3), Cell(1, 1)) == 8
    ensures Cell(3, 3) in lab && D2(Cell(3, 3), lab[Cell(3, 3)]) == 9
  {
    var c, s := Cell(3, 3), Cell(1, 1);
    ThreeDistances(f);
    hide D2, Norm2, Rooted;
    TwoStepsAway(f, lab, Cell(0, 3), Cell(1, 3), Cell(2, 3));
    TwoStepsAway(f, lab, Cell(3, 0), Cell(3, 1), Cell(3, 2));
    assert Adjacent(Cell(2, 3), c) && Reaches(f, c, Cell(0, 3));
    assert ServedAsWell(lab, c, Cell(0, 3));
    assert LabelOk(f, lab, c, lab[c]);
  }

  /** The obstacle (3,3) is due is not connected to it. */
  lemma ThreeObstaclesDisconnected(f: Task)
    requires f.width >= 4 && f.height >= 4 && f.reach >= 9 && f.sources == THREE_OBSTACLES
    ensures Due(f, Cell(3, 3), Cell(1, 1)) && !Connected(f)
  {
    ThreeDistances(f);
    hide D2, Norm2;
    assert !OwnPath(f, Cell(2, 3), Cell(1, 1)) && !OwnPath(f, Cell(3, 2), Cell(1, 1));
    assert !OwnPath(f, Cell(3, 3), Cell(1, 1));
  }

  lemma ThreeDistances(f: Task)
    requires f.width >= 4 && f.height >= 4 && f.reach >= 9 && f.sources == THREE_OBSTACLES
    ensures forall s :: s in f.sources ==> D2(Cell(3, 3), s) == (if s == Cell(1, 1) then 8 else 9)
    ensures OnlyNearest(f, Cell(1, 3), Cell(0, 3)) && OnlyNearest(f, Cell(2, 3), Cell(0, 3))
    ensures OnlyNearest(f, Cell(3, 1), Cell(3, 0)) && OnlyNearest(f, Cell(3, 2), Cell(3, 0))
    ensures D2(Cell(2, 3), Cell(0, 3)) == 4 == D2(Cell(3, 2), Cell(3, 0))
  {
    hide D2, Norm2;
    Apart(Cell(3, 3), Cell(1, 1), 2, 2); Apart(Cell(3, 3), Cell(0, 3), 3, 0); Apart(Cell(3, 3), Cell(3, 0), 0, 3);
    Apart(Cell(1, 3), Cell(1, 1), 0, 2); Apart(Cell(1, 3), Cell(0, 3), 1, 0); Apart(Cell(1, 3), Cell(3, 0), 2, 3);
    Apart(Cell(2, 3), Cell(1, 1), 1, 2); Apart(Cell(2, 3), Cell(0, 3), 2, 0); Apart(Cell(2, 3), Cell(3, 0), 1, 3);
    Apart(Cell(3, 1), Cell(1, 1), 2, 0); Apart(Cell(3, 1), Cell(0, 3), 3, 2); Apart(Cell(3, 1), Cell(3, 0), 0, 1);
    Apart(Cell(3, 2), Cell(1, 1), 2, 1); Apart(Cell(3, 2), Cell(0, 3), 3, 1); Apart(Cell(3, 2), Cell(3, 0), 0, 2);
  }

  /** Cells `a` columns and `b` rows apart. */
  lemma Apart(c: Cell, s: Cell, a: nat, b: nat)
    requires (c.x - s.x == a || s.x - c.x == a) && (c.y - s.y == b || s.y - c.y == b)
    ensures D2(c, s) == a * a + b * b
  {
    Mirror(c.x - s.x, c.y - s.y);
    hide D2;
    assert D2(c, s) == Norm2(Offset(a, b)) by { Framed(c, s, c, s); }
  }

  /** The cells at one and two steps from an obstacle that is their only nearest. */
  lemma TwoStepsAway(f: Task, lab: Labels, t: Cell, q: Cell, p: Cell)
    requires Settled(f, lab) && f.reach >= 4 && InGrid(f, q) && InGrid(f, p) && t in f.sources
    requires OnlyNearest(f, q, t) && OnlyNearest(f, p, t) && Adjacent(t, q) && Adjacent(q, p)
    requires StepNearer(q, t, t) && StepNearer(p, q, t) && Reaches(f, p, t)
    ensures p in lab && lab[p] == t
  {
    hide D2, Rooted;
    NearerIsNearer(q, t, t);
    NearerIsNearer(p, q, t);
    assert ServedAsWell(lab, q, t);
    assert LabelOk(f, lab, q, lab[q]);
    assert ServedAsWell(lab, p, t);
    assert LabelOk(f, lab, p, lab[p]);
  }

  /** One obstacle: exactly the cells within the radius are claimed. */
  lemma OneSourceExact(f: Task, lab: Labels, s: Cell)
    requires Settled(f, lab) && f.sources == {s}
    ensures forall c :: c in lab <==> InGrid(f, c) && Reaches(f, c, s)
    ensures forall c :: c in lab ==> lab[c] == s
  {
    hide D2, Rooted;
    forall c | InGrid(f, c) && Reaches(f, c, s) ensures c in lab {
      OwnPathToOnly(f, c, s);
      ExactOnOwnPath(f, lab, c, s);
    }
    forall c | c in lab ensures InGrid(f, c) && Reaches(f, c, s) && lab[c] == s {
      assert LabelOk(f, lab, c, lab[c]);
    }
  }

  lemma {:induction false} OwnPathToOnly(f: Task, c: Cell, s: Cell)
    requires f.sources == {s} && InGrid(f, c) && InGrid(f, s)
    ensures OwnPath(f, c, s)
    decreases D2(c, s)
  {
    hide D2;
    if c.x != s.x {
      NearerIsNearer(c, ToX(c, s), s);
      OwnPathToOnly(f, ToX(c, s), s);
    } else if c.y != s.y {
      NearerIsNearer(c, ToY(c, s), s);
      OwnPathToOnly(f, ToY(c, s), s);
    }
  }
}

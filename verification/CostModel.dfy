/** How the inflation layer turns a distance into a cost
    (`InflationLayer::computeCost`). */
module CostModel {
  import opened Prelude
  import opened RealArithmetic
  import opened RankTable
  import opened Brushfire

  /** The library functions and parameters the cost depends on. */
  datatype Model = Model(
    hypot: (int, int) -> real,
    exp: real -> real,
    resolution: real,
    inscribedRadius: real,
    costScalingFactor: real)
  {
    /** `std::hypot` returns the length of its arguments, `std::exp` rises
        through 1 at 0, and the parameters have the sign a cost needs. */
    ghost predicate Sound() {
      && (forall i, j :: hypot(i, j) >= 0.0 && hypot(i, j) * hypot(i, j) == (i * i + j * j) as real)
      && (forall a, b :: a <= b ==> 0.0 <= exp(a) <= exp(b))
      && exp(0.0) == 1.0
      && resolution > 0.0 && costScalingFactor >= 0.0
    }

    function Factor(distance: real): real {
      exp(-1.0 * costScalingFactor * (distance * resolution - inscribedRadius))
    }

    function ComputeCost(distance: real): (cost: int) {
      if distance == 0.0 then LETHAL_OBSTACLE
      else if distance * resolution <= inscribedRadius then INSCRIBED_INFLATED_OBSTACLE
      else Truncate((INSCRIBED_INFLATED_OBSTACLE - 1) as real * Factor(distance))
    }

    /** The cost a cell gets from an obstacle. */
    function CostFrom(c: Cell, s: Cell): int {
      ComputeCost(hypot(Abs(c.x - s.x), Abs(c.y - s.y)))
    }

    lemma FactorFalls(d: real, e: real)
      requires Sound() && d <= e && d * resolution > inscribedRadius
      ensures 0.0 <= Factor(e) <= Factor(d) <= 1.0
    {
      ProductMonotone(resolution, d, e);
      var a := d * resolution - inscribedRadius;
      var b := e * resolution - inscribedRadius;
      ProductMonotone(costScalingFactor, a, b);
      ProductMonotone(costScalingFactor, 0.0, a);
      assert -1.0 * costScalingFactor * b == -(costScalingFactor * b);
      assert -1.0 * costScalingFactor * a == -(costScalingFactor * a);
    }

    /** Farther is never dearer, and only distance zero is lethal. */
    lemma CostFalls(d: real, e: real)
      requires Sound() && 0.0 <= d <= e
      ensures 0 <= ComputeCost(e) <= ComputeCost(d) < 255
      ensures d > 0.0 ==> ComputeCost(d) <= INSCRIBED_INFLATED_OBSTACLE
      ensures ComputeCost(0.0) == LETHAL_OBSTACLE
    {
      ProductMonotone(resolution, d, e);
      if d * resolution > inscribedRadius { FactorFalls(d, e); }
      if e * resolution > inscribedRadius { FactorFalls(e, e); }
    }

    /** The cost in plain terms: lethal at distance zero, inscribed within the
        inscribed radius, and beyond it 252 falling off exponentially with the
        distance from that radius, rounded down. */
    lemma CostInPlainTerms(distance: real)
      requires Sound() && distance >= 0.0
      ensures distance == 0.0 ==> ComputeCost(distance) == 254
      ensures 0.0 < distance && distance * resolution <= inscribedRadius ==> ComputeCost(distance) == 253
      ensures 0.0 < distance && distance * resolution > inscribedRadius ==>
        var beyond := distance * resolution - inscribedRadius;
        var share := exp(-(costScalingFactor * beyond));
        0.0 <= ComputeCost(distance) as real <= 252.0 * share < ComputeCost(distance) as real + 1.0
    {
      if distance * resolution > inscribedRadius {
        FactorFalls(distance, distance);
        var beyond := distance * resolution - inscribedRadius;
        assert -1.0 * costScalingFactor * beyond == -(costScalingFactor * beyond);
      }
    }

    lemma HypotOfCells(c: Cell, s: Cell)
      requires Sound()
      ensures var h := hypot(Abs(c.x - s.x), Abs(c.y - s.y)); h >= 0.0 && h * h == D2(c, s) as real
    {
      var dx, dy := Abs(c.x - s.x), Abs(c.y - s.y);
      assert dx * dx == (c.x - s.x) * (c.x - s.x);
      assert dy * dy == (c.y - s.y) * (c.y - s.y);
      assert hypot(dx, dy) * hypot(dx, dy) == (dx * dx + dy * dy) as real;
    }

    lemma ZeroHypot(c: Cell, s: Cell)
      requires Sound()
      ensures hypot(Abs(c.x - s.x), Abs(c.y - s.y)) >= 0.0
      ensures hypot(Abs(c.x - s.x), Abs(c.y - s.y)) == 0.0 <==> D2(c, s) == 0
    {
      HypotOfCells(c, s);
      hide D2, Abs, Sound;
      ZeroRoot(hypot(Abs(c.x - s.x), Abs(c.y - s.y)), D2(c, s));
    }

    /** A nearer obstacle never gives a lower cost. */
    lemma NearerCostsMore(c: Cell, s: Cell, t: Cell)
      requires Sound() && D2(c, s) <= D2(c, t)
      ensures 0 <= CostFrom(c, t) <= CostFrom(c, s) < 255
    {
      HypotOfCells(c, s);
      HypotOfCells(c, t);
      hide D2;
      var h, k := hypot(Abs(c.x - s.x), Abs(c.y - s.y)), hypot(Abs(c.x - t.x), Abs(c.y - t.y));
      RootOrder(k, h);
      CostFalls(h, k);
    }

    /** The radius test of `enqueue`, `distance > cell_inflation_radius_`. */
    lemma RadiusTest(c: Cell, s: Cell, radius: int)
      requires Sound() && radius >= 0
      ensures hypot(Abs(c.x - s.x), Abs(c.y - s.y)) > radius as real <==> D2(c, s) > radius * radius
    {
      HypotOfCells(c, s);
      hide D2;
      var h := hypot(Abs(c.x - s.x), Abs(c.y - s.y));
      assert (radius as real) * (radius as real) == (radius * radius) as real;
      RootOrder(radius as real, h);
    }
  }

  lemma ProductMonotone(k: real, a: real, b: real)
    requires k >= 0.0 && a <= b
    ensures k * a <= k * b && a * k <= b * k
  {
    assert k * (b - a) >= 0.0;
  }

  lemma RootOrder(a: real, b: real)
    requires 0.0 <= a && 0.0 <= b
    ensures a * a < b * b <==> a < b
  {
    SquaresOrder(a, b);
  }

  lemma ZeroRoot(h: real, d: nat)
    requires h >= 0.0 && h * h == d as real
    ensures h == 0.0 <==> d == 0
  {
    RootOrder(0.0, h);
  }
}

/** How the collision monitor turns a list of zones into one velocity, seen
    as arithmetic on ratios. */
module SafetyFilter {
  import opened Prelude
  import opened RealArithmetic
  import opened PointInPolygon
  import opened Kinematics
  import opened Zones

  /** `Velocity::operator*`. */
  function Scaled(v: Velocity, mul: real): Velocity { Velocity(v.x * mul, v.y * mul, v.tw * mul) }

  function Norm2(v: Velocity): real { v.x * v.x + v.y * v.y + v.tw * v.tw }

  /** `Velocity::operator<`. */
  predicate Less(a: Velocity, b: Velocity) { Norm2(a) < Norm2(b) }

  /** `Velocity::isZero`. */
  predicate IsZero(v: Velocity) { v.x == 0.0 && v.y == 0.0 && v.tw == 0.0 }

  const ZERO := Velocity(0.0, 0.0, 0.0)

  /** `std::hypot`. */
  ghost predicate IsHypot(hypot: (real, real) -> real) {
    forall x, y :: hypot(x, y) >= 0.0 && Times(hypot(x, y), hypot(x, y)) == x * x + y * y
  }

  function Clamp01(r: real): real { if r < 0.0 then 0.0 else if r > 1.0 then 1.0 else r }

  /** The ratio of a limit zone: the same for all components. */
  function LimitRatio(hypot: (real, real) -> real, v: Velocity, linearLimit: real, angularLimit: real): real {
    var linearVel := hypot(v.x, v.y);
    var byLinear := if linearVel != 0.0 then MinReal(1.0, linearLimit / linearVel) else 1.0;
    var byAngular := if v.tw != 0.0 then MinReal(byLinear, angularLimit / AbsReal(v.tw)) else byLinear;
    Clamp01(byAngular)
  }

  /** What one zone demands: no more than this share of the command. */
  datatype Demand = Nothing | AtMost(ratio: real)

  ghost function DemandOf(trig: Trig, hypot: (real, real) -> real, p: Polygon, points: SourcePoints,
                          cmd: Velocity): Demand {
    var seen := Collected(p.sourcesNames, points);
    if !p.enabled || p.poly == [] then Nothing
    else match p.actionType
      case DoNothing => Nothing
      case Stop => if p.Triggered(seen) then AtMost(0.0) else Nothing
      case Slowdown => if p.Triggered(seen) then AtMost(p.slowdownRatio) else Nothing
      case Limit =>
        if p.Triggered(seen) then AtMost(LimitRatio(hypot, cmd, p.linearLimit, p.angularLimit)) else Nothing
      case Approach =>
        var t := p.CollisionTime(trig, seen, cmd);
        if t >= 0.0 && p.timeBeforeCollision != 0.0 then AtMost(t / p.timeBeforeCollision) else Nothing
  }

  /** The demands of a list of zones, in order. */
  ghost function DemandsOf(trig: Trig, hypot: (real, real) -> real, ps: seq<Polygon>, points: SourcePoints,
                           cmd: Velocity): (r: seq<Demand>)
    ensures |r| == |ps|
    ensures forall i :: 0 <= i < |ps| ==> r[i] == DemandOf(trig, hypot, ps[i], points, cmd)
  {
    seq(|ps|, i requires 0 <= i < |ps| => DemandOf(trig, hypot, ps[i], points, cmd))
  }

  /** Ratios and limits are not negative; an approach zone looks ahead. */
  predicate WellSet(p: Polygon) {
    && p.slowdownRatio >= 0.0 && p.linearLimit >= 0.0 && p.angularLimit >= 0.0
    && (p.actionType == Approach ==> p.timeBeforeCollision > 0.0 && p.simulationTimeStep > 0.0)
  }

  lemma DemandNonNegative(trig: Trig, hypot: (real, real) -> real, p: Polygon, points: SourcePoints, cmd: Velocity)
    requires WellSet(p)
    ensures var d := DemandOf(trig, hypot, p, points, cmd); d.AtMost? ==> d.ratio >= 0.0
  {
    hide Polygon.Triggered, Polygon.CollisionTime, LimitRatio;
    LimitRatioInRange(hypot, cmd, p.linearLimit, p.angularLimit);
    if p.actionType == Approach {
      var t := p.CollisionTime(trig, Collected(p.sourcesNames, points), cmd);
      if t >= 0.0 { NonNegativeQuotient(t, p.timeBeforeCollision); }
    }
  }

  lemma LimitRatioInRange(hypot: (real, real) -> real, v: Velocity, linearLimit: real, angularLimit: real)
    ensures 0.0 <= LimitRatio(hypot, v, linearLimit, angularLimit) <= 1.0
  {
  }

  /** A limit zone keeps both the linear and the angular speed within its limits. */
  lemma LimitKeepsLimits(hypot: (real, real) -> real, v: Velocity, linearLimit: real, angularLimit: real)
    requires IsHypot(hypot) && linearLimit >= 0.0 && angularLimit >= 0.0
    ensures var r := LimitRatio(hypot, v, linearLimit, angularLimit);
      Times(r, hypot(v.x, v.y)) <= linearLimit && Times(r, AbsReal(v.tw)) <= angularLimit
  {
    var h, w := hypot(v.x, v.y), AbsReal(v.tw);
    var r := LimitRatio(hypot, v, linearLimit, angularLimit);
    if h != 0.0 {
      NonNegativeQuotient(linearLimit, h);
      RatioTimes(r, linearLimit, h);
    }
    if w != 0.0 {
      NonNegativeQuotient(angularLimit, w);
      RatioTimes(r, angularLimit, w);
    }
  }

  /** It takes no more than it must: the ratio is 1 where neither limit is
      exceeded, and else one of the speeds ends up exactly at its limit. */
  lemma LimitTakesNoMore(hypot: (real, real) -> real, v: Velocity, linearLimit: real, angularLimit: real)
    requires IsHypot(hypot) && linearLimit >= 0.0 && angularLimit >= 0.0
    ensures var r := LimitRatio(hypot, v, linearLimit, angularLimit);
      if hypot(v.x, v.y) <= linearLimit && AbsReal(v.tw) <= angularLimit then r == 1.0
      else r < 1.0 && (Times(r, hypot(v.x, v.y)) == linearLimit || Times(r, AbsReal(v.tw)) == angularLimit)
  {
    var h, w := hypot(v.x, v.y), AbsReal(v.tw);
    if h > 0.0 { RatioIs(linearLimit, h); }
    if w > 0.0 { RatioIs(angularLimit, w); }
    hide IsHypot, Times;
  }

  lemma RatioIs(limit: real, speed: real)
    requires speed > 0.0 && limit >= 0.0
    ensures limit / speed >= 0.0 && Times(limit / speed, speed) == limit
    ensures limit / speed >= 1.0 <==> speed <= limit
  {
    NonNegativeQuotient(limit, speed);
    QuotientTimes(limit, speed);
    TimesOrder(limit / speed, 1.0, speed);
    TimesOne(speed, 1.0);
    TimesIs(1.0, speed);
    hide Times;
  }

  lemma RatioTimes(r: real, limit: real, speed: real)
    requires speed > 0.0 && 0.0 <= r <= limit / speed
    ensures Times(r, speed) <= limit
  {
    assert (limit / speed) * speed == limit;
    assert (limit / speed - r) * speed >= 0.0;
  }

  // ----- comparing scaled commands ----------------------------------------------

  lemma NormScaled(v: Velocity, m: real)
    ensures Norm2(Scaled(v, m)) == Times(Times(m, m), Norm2(v))
  {
  }

  lemma NormZero(v: Velocity)
    ensures Norm2(v) >= 0.0
    ensures Norm2(v) == 0.0 <==> IsZero(v)
  {
    SquareSign(v.x); SquareSign(v.y); SquareSign(v.tw);
  }

  lemma SquareSign(a: real)
    ensures a * a >= 0.0 && (a * a == 0.0 <==> a == 0.0)
  {
    SameSigns(a, a);
  }

  lemma SameSigns(a: real, b: real)
    requires (a > 0.0 && b > 0.0) || (a < 0.0 && b < 0.0) || (a == 0.0 && b == 0.0)
    ensures a * b >= 0.0 && (a * b == 0.0 <==> a == 0.0)
  {
  }

  /** Scaled commands compare as their ratios do. */
  lemma LessByRatio(v: Velocity, m: real, n: real)
    requires m >= 0.0 && n >= 0.0
    ensures Less(Scaled(v, m), Scaled(v, n)) <==> !IsZero(v) && m < n
  {
    NormScaled(v, m);
    NormScaled(v, n);
    NormZero(v);
    var k := Norm2(v);
    var mm, nn := Times(m, m), Times(n, n);
    hide Norm2, Scaled, IsZero;
    SquaresOrder(m, n);
    hide Times;
    if k > 0.0 { TimesOrder(mm, nn, k); } else { TimesZero(mm); TimesZero(nn); }
  }

  lemma ZeroScaled(v: Velocity, m: real)
    ensures Scaled(v, 0.0) == ZERO && Scaled(v, 1.0) == v
    ensures IsZero(v) ==> Scaled(v, m) == v
  {
  }

  // ----- the decision ---------------------------------------------------------------

  /** The tightest demand, starting from `start`. */
  function Tightest(start: real, demands: seq<Demand>): real {
    if demands == [] then start
    else
      var rest := Tightest(start, demands[..|demands| - 1]);
      match demands[|demands| - 1]
      case Nothing => rest
      case AtMost(r) => MinReal(rest, r)
  }

  predicate LeastDemand(m: real, start: real, demands: seq<Demand>) {
    && m <= start && (forall d :: d in demands && d.AtMost? ==> m <= d.ratio)
    && (m == start || AtMost(m) in demands)
  }

  lemma {:induction false} TightestIsLeast(start: real, demands: seq<Demand>)
    ensures LeastDemand(Tightest(start, demands), start, demands)
  {
    if demands != [] {
      var n := |demands| - 1;
      TightestIsLeast(start, demands[..n]);
      assert demands == demands[..n] + [demands[n]];
    }
  }

  /** The order of the zones, and how often each is listed, do not matter. */
  lemma TightestOrderFree(start: real, a: seq<Demand>, b: seq<Demand>)
    requires forall d :: d in a <==> d in b
    ensures Tightest(start, a) == Tightest(start, b)
  {
    TightestIsLeast(start, a);
    TightestIsLeast(start, b);
  }

  lemma {:induction false} TightestNonNegative(start: real, demands: seq<Demand>)
    requires start >= 0.0 && forall d :: d in demands && d.AtMost? ==> d.ratio >= 0.0
    ensures 0.0 <= Tightest(start, demands) <= start
  {
    TightestIsLeast(start, demands);
  }

  /** Once at zero, nothing is tighter. */
  lemma {:induction false} ZeroStays(start: real, demands: seq<Demand>, k: nat)
    requires k <= |demands| && Tightest(start, demands[..k]) == 0.0
    requires forall d :: d in demands && d.AtMost? ==> d.ratio >= 0.0
    ensures Tightest(start, demands) == 0.0
    decreases |demands| - k
  {
    if k == |demands| {
      assert demands[..k] == demands;
    } else {
      assert demands[..k + 1][..k] == demands[..k];
      assert demands[k] in demands;
      ZeroStays(start, demands, k + 1);
    }
  }
}

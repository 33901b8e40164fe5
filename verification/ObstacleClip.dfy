/** Clipping a clearing ray to the map (`ObstacleLayer::raytraceFreespace`). */
module ObstacleClip {
  import opened Prelude
  import opened RealArithmetic
  import opened WorldCoordinates

  /** How far the upper clips stop short of the edge. */
  const EDGE_GAP := 0.001

  /** The point at parameter `t` of the ray along one axis. */
  function Along(o: real, d: real, t: real): real { o + Times(d, t) }

  /** Where the ray crosses `e`: no later than a parameter at which it is on the
      other side of it. */
  lemma Crossing(o: real, d: real, e: real, t: real)
    requires 0.0 <= t
    requires (o <= e < Along(o, d, t)) || (Along(o, d, t) < e <= o)
    ensures d != 0.0 && 0.0 <= (e - o) / d < t && Along(o, d, (e - o) / d) == e
  {
    var s := (e - o) / d;
    assert d != 0.0 by { NoStep(o, t); }
    assert Times(d, s) == e - o by { QuotientTimes(e - o, d); }
    if d > 0.0 {
      TimesOrder(s, t, d);
      TimesOrder(0.0, s, d);
      TimesZero(d);
    } else {
      TimesOrder(s, t, -d);
      TimesOrder(0.0, s, -d);
      TimesZero(-d);
      TimesNegates(d, s);
      TimesNegates(d, t);
    }
    hide Times;
    if d < 0.0 && t == 0.0 { TimesZero(d); }
    TSign(o, d, e, t);
  }

  /** A ray that has moved off its start goes that way. */
  lemma TSign(o: real, d: real, e: real, t: real)
    requires 0.0 <= t
    ensures o <= e < Along(o, d, t) ==> d > 0.0
    ensures Along(o, d, t) < e <= o ==> d < 0.0
  {
    TimesSign(d, t);
  }

  lemma NoStep(o: real, t: real)
    ensures Along(o, 0.0, t) == o
  {
  }

  /** Between the start and a point of the ray. */
  lemma Between(o: real, d: real, s: real, t: real)
    requires 0.0 <= s <= t
    ensures d >= 0.0 ==> o <= Along(o, d, s) <= Along(o, d, t)
    ensures d <= 0.0 ==> Along(o, d, t) <= Along(o, d, s) <= o
    ensures Along(o, d, 1.0) == o + d
  {
    TimesZero(d);
    if d > 0.0 {
      TimesOrder(s, t, d);
      TimesOrder(0.0, s, d);
    } else if d < 0.0 {
      TimesOrder(s, t, -d);
      TimesOrder(0.0, s, -d);
      TimesNegates(d, s);
      TimesNegates(d, t);
      TimesNegates(d, 0.0);
    }
    assert Times(d, 1.0) == d;
    if d != 0.0 { hide Times; }
  }

  /** The ray is on the right of the map when it comes to the lower edge, if it does. */
  predicate LeavesRight(ox: real, oy: real, px: real, py: real, maxX: real, minY: real)
    requires minY <= oy
  {
    px > maxX && (py < minY ==> Along(ox, px - ox, (minY - oy) / (py - oy)) > maxX)
  }

  /** The ray is above the map when it comes to the left or the right edge, if it does. */
  predicate LeavesAbove(ox: real, oy: real, px: real, py: real, minX: real, maxX: real, maxY: real)
    requires minX <= ox < maxX
  {
    && py > maxY
    && (px < minX ==> Along(oy, py - oy, (minX - ox) / (px - ox)) > maxY)
    && (px > maxX ==> Along(oy, py - oy, (maxX - ox) / (px - ox)) > maxY)
  }

  /** The four clips.  The sensor is on the map; the endpoint ends up within the
      edge gap of the ray from the sensor to the measured point, and a point
      already in the box of the map is not moved.  The endpoint is in the closed
      box unless the upper edge the ray leaves through is closer than the gap to
      the opposite one, and then it is off the lower side. */
  method ClipToMap(ox: real, oy: real, px: real, py: real, minX: real, minY: real, maxX: real, maxY: real)
    returns (wx: real, wy: real, ghost t: real)
    requires minX <= ox < maxX && minY <= oy < maxY
    ensures minX <= wx <= maxX && minY <= wy <= maxY <==>
      if LeavesAbove(ox, oy, px, py, minX, maxX, maxY) then maxY - minY >= EDGE_GAP
      else LeavesRight(ox, oy, px, py, maxX, minY) ==> maxX - minX >= EDGE_GAP
    ensures wx <= maxX && wy <= maxY
    ensures 0.0 <= t <= 1.0
    ensures Along(ox, px - ox, t) - EDGE_GAP <= wx <= Along(ox, px - ox, t)
    ensures Along(oy, py - oy, t) - EDGE_GAP <= wy <= Along(oy, py - oy, t)
    ensures minX <= px <= maxX && minY <= py <= maxY ==> wx == px && wy == py
  {
    wx, wy, t := px, py, 1.0;
    var a, b := wx - ox, wy - oy;
    Between(ox, a, 1.0, 1.0);
    Between(oy, b, 1.0, 1.0);
    hide Along, Times;
    if wx < minX {
      Crossing(ox, a, minX, t);
      var u := (minX - ox) / a;
      Between(oy, b, u, t);
      t := u;
      wx := minX;
      wy := AlongIs(oy, b, u);
    }
    if wy < minY {
      Crossing(oy, b, minY, t);
      var u := (minY - oy) / b;
      Between(ox, a, u, t);
      t := u;
      wx := AlongIs(ox, a, u);
      wy := minY;
    }
    if wx > maxX {
      Crossing(ox, a, maxX, t);
      var u := (maxX - ox) / a;
      Between(oy, b, u, t);
      t := u;
      wx := maxX - EDGE_GAP;
      wy := AlongIs(oy, b, u);
    }
    if wy > maxY {
      Crossing(oy, b, maxY, t);
      var u := (maxY - oy) / b;
      Between(ox, a, u, t);
      t := u;
      wx := AlongIs(ox, a, u);
      wy := maxY - EDGE_GAP;
    }
  }

  /** `o + d * t`. */
  method AlongIs(o: real, d: real, t: real) returns (w: real)
    ensures w == Along(o, d, t)
  {
    w := o + d * t;
  }

  /** A map narrower than the gap, and a measurement far to the right of it: the
      endpoint is clipped to the left of the map. */
  method NarrowMapEscapes() returns (wx: real, wy: real)
    ensures wx < 0.0 && 0.0 <= wy <= 1.0
  {
    NarrowMap();
    hide LeavesRight, LeavesAbove, Along, Times;
    ghost var t;
    wx, wy, t := ClipToMap(0.0001, 0.5, 1.0, 0.5, 0.0, 0.0, 0.0005, 1.0);
    NoStep(0.5, t);
    assert 0.5 - 0.5 == 0.0;
  }

  lemma NarrowMap()
    ensures LeavesRight(0.0001, 0.5, 1.0, 0.5, 0.0005, 0.0)
    ensures !LeavesAbove(0.0001, 0.5, 1.0, 0.5, 0.0, 0.0005, 1.0)
  {
  }
}

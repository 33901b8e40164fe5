/** From world coordinates to cells and back (`Costmap2D`), one axis at a time. */
module WorldCoordinates {
  import opened Prelude
  import opened RealArithmetic

  /** One axis of the map. */
  datatype Axis = Axis(origin: real, resolution: real, size: nat) {
    predicate Valid() { resolution > 0.0 }

    function End(): real { origin + Times(size as real, resolution) }

    /** `mapToWorld`: the centre of a cell. */
    function Centre(m: int): real { origin + Times(m as real + 0.5, resolution) }

    /** `worldToMapNoBounds`. */
    function Cell(w: real): int
      requires Valid()
    {
      Truncate((w - origin) / resolution)
    }

    /** `worldToMap` accepts the coordinate. */
    predicate Legal(w: real)
      requires Valid()
    {
      w >= origin && Cell(w) < size
    }

    /** `worldToMapEnforceBounds`. */
    function Enforced(w: real): int
      requires Valid()
    {
      if w < origin then 0 else if w > End() then size - 1 else Cell(w)
    }

    /** The cells before `n` are the coordinates before `n` resolutions. */
    lemma CellBelow(w: real, n: nat)
      requires Valid() && w >= origin
      ensures Cell(w) >= 0
      ensures Cell(w) < n <==> w < origin + Times(n as real, resolution)
    {
      var q := (w - origin) / resolution;
      QuotientTimes(w - origin, resolution);
      TimesOrder(q, n as real, resolution);
      TimesOrder(0.0, q, resolution);
      assert Times(0.0, resolution) == 0.0;
      hide Times;
      assert Truncate(q) == q.Floor;
      assert q.Floor < n <==> q < n as real;
    }

    /** `worldToMap` accepts exactly the half-open box of the map. */
    lemma LegalExactlyInside(w: real)
      requires Valid()
      ensures Legal(w) <==> origin <= w < End()
    {
      hide Cell;
      if w >= origin { CellBelow(w, size); }
    }

    /** A cell's centre maps back to the cell. */
    lemma CentreRoundTrip(m: nat)
      requires Valid() && m < size
      ensures Legal(Centre(m)) && Cell(Centre(m)) == m
    {
      TimesOrder(0.0, m as real + 0.5, resolution);
      TimesOrder(m as real, m as real + 0.5, resolution);
      TimesOrder(m as real + 0.5, (m + 1) as real, resolution);
      assert Times(0.0, resolution) == 0.0;
      hide Times, Cell;
      CellBelow(Centre(m), m);
      CellBelow(Centre(m), m + 1);
    }

    /** The centre of a point's cell is at most half a cell away. */
    lemma CentreIsNear(w: real)
      requires Valid() && w >= origin
      ensures AbsReal(Centre(Cell(w)) - w) <= Times(0.5, resolution)
    {
      hide Cell;
      var m := Cell(w);
      CellBelow(w, 0);
      CellBelow(w, m);
      CellBelow(w, m + 1);
      assert Times(m as real + 0.5, resolution) == Times(m as real, resolution) + Times(0.5, resolution);
      assert Times((m + 1) as real, resolution) == Times(m as real, resolution) + 2.0 * Times(0.5, resolution);
    }

    /** `worldToMapEnforceBounds` does not always enforce them: it gives a valid
        index except exactly at the upper end, where it gives the size. */
    lemma EnforcedExceptAtEnd(w: real)
      requires Valid() && size > 0
      ensures 0 <= Enforced(w) < size <==> w != End()
      ensures w == End() ==> Enforced(w) == size
    {
      hide Cell, Times;
      EndAfterOrigin();
      if origin <= w <= End() {
        CellBelow(w, size);
        CellBelow(w, size + 1);
        if w == End() { OneMore(); }
      }
    }

    lemma EndAfterOrigin()
      requires Valid() && size > 0
      ensures End() > origin
    {
      TimesOrder(0.0, size as real, resolution);
      assert Times(0.0, resolution) == 0.0;
      hide Times;
    }

    lemma OneMore()
      requires Valid()
      ensures origin + Times((size + 1) as real, resolution) > End()
    {
      TimesOrder(size as real, (size + 1) as real, resolution);
      hide Times;
    }
  }

  /** On a map of ten cells of one metre from 0, the point 10 gets index 10. */
  lemma UpperEdgeEscapes()
    ensures var axis := Axis(0.0, 1.0, 10);
      axis.Valid() && axis.Enforced(10.0) == 10
  {
    var axis := Axis(0.0, 1.0, 10);
    assert axis.End() == 10.0;
    axis.EnforcedExceptAtEnd(10.0);
  }

}

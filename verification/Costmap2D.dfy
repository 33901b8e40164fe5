/** The costmap buffer and its rolling window (`Costmap2D`). */
module Costmap {
  import opened Prelude
  import opened RealArithmetic
  import opened GridIndex
  import opened WorldCoordinates

  /** `memcpy` of `n` entries. */
  method MemCpy<T>(dst: array<T>, d: int, src: array<T>, s: int, n: nat)
    requires dst != src
    requires n > 0 ==> 0 <= d && d + n <= dst.Length && 0 <= s && s + n <= src.Length
    modifies dst
    ensures if n == 0 then dst[..] == old(dst[..])
            else dst[..] == old(dst[..d]) + src[s..s + n] + old(dst[d + n..])
  {
    for k := 0 to n
      invariant forall i :: 0 <= i < dst.Length ==> dst[i] == if d <= i < d + k then src[s + i - d] else old(dst[i])
    {
      dst[d + k] := src[s + k];
    }
  }

  /** Replacing part of one row of a buffer changes those cells only. */
  lemma RowReplaced<T>(data: seq<T>, width: int, height: int, x0: int, y0: int, row: seq<T>)
    requires |data| == width * height && row != []
    requires 0 <= x0 && x0 + |row| <= width && 0 <= y0 < height
    ensures var d := Index(width, x0, y0);
      && 0 <= d && d + |row| <= |data|
      && forall x, y :: InMap(width, height, x, y) ==>
           At(data[..d] + row + data[d + |row|..], width, height, x, y)
             == if y == y0 && x0 <= x < x0 + |row| then row[x - x0] else At(data, width, height, x, y)
  {
    var d := Index(width, x0, y0);
    RowInRange(width, height, x0, y0, |row|);
    hide Index;
    var now := data[..d] + row + data[d + |row|..];
    forall x, y | InMap(width, height, x, y)
      ensures At(now, width, height, x, y)
        == if y == y0 && x0 <= x < x0 + |row| then row[x - x0] else At(data, width, height, x, y)
    {
      IndexInRange(width, height, x, y);
      InRow(width, x0, y0, |row|, x, y);
    }
  }

  lemma RowInRange(width: int, height: int, x0: int, y0: int, n: nat)
    requires 0 <= x0 && x0 + n <= width && 0 <= y0 < height
    ensures 0 <= Index(width, x0, y0) && Index(width, x0, y0) + n <= width * height
  {
    if x0 < width { IndexInRange(width, height, x0, y0); }
    if n > 0 { IndexInRange(width, height, x0 + n - 1, y0); }
    if x0 == width { RowsApart(width, y0, height); }
  }

  /** An index falls into a stretch of a row exactly when its cell does. */
  lemma InRow(width: int, x0: int, y0: int, n: nat, x: int, y: int)
    requires 0 <= x0 && x0 + n <= width && 0 <= x < width
    ensures Index(width, x0, y0) <= Index(width, x, y) < Index(width, x0, y0) + n
      <==> y == y0 && x0 <= x < x0 + n
    ensures y == y0 ==> Index(width, x, y) - Index(width, x0, y0) == x - x0
  {
    if y < y0 { RowsApart(width, y, y0); } else if y0 < y { RowsApart(width, y0, y); }
  }

  /** A stretch of a row holds the cells of the row. */
  lemma RowIsSource<T>(data: seq<T>, dataWidth: int, dataHeight: int, x0: int, y0: int, n: nat)
    requires |data| == dataWidth * dataHeight
    requires 0 <= x0 && x0 + n <= dataWidth && 0 <= y0 < dataHeight
    ensures 0 <= Index(dataWidth, x0, y0) && Index(dataWidth, x0, y0) + n <= |data|
    ensures var row := data[Index(dataWidth, x0, y0)..Index(dataWidth, x0, y0) + n];
      forall x :: x0 <= x < x0 + n ==> At(data, dataWidth, dataHeight, x, y0) == row[x - x0]
  {
    RowInRange(dataWidth, dataHeight, x0, y0, n);
    var row := data[Index(dataWidth, x0, y0)..Index(dataWidth, x0, y0) + n];
    forall x | x0 <= x < x0 + n ensures At(data, dataWidth, dataHeight, x, y0) == row[x - x0] {
      IndexInRange(dataWidth, dataHeight, x, y0);
      InRow(dataWidth, x0, y0, n, x, y0);
    }
  }

  /** A rectangle of cells placed elsewhere. */
  datatype Region = Region(sx: int, sy: int, dx: int, dy: int, width: nat, height: nat) {
    predicate Covers(x: int, y: int, rows: int) { dx <= x < dx + width && dy <= y < dy + rows }

    /** The region is empty, or lies inside both buffers. */
    predicate Fits(srcWidth: nat, srcHeight: nat, dstWidth: nat, dstHeight: nat) {
      width > 0 && height > 0 ==>
        && 0 <= sx && sx + width <= srcWidth && 0 <= sy && sy + height <= srcHeight
        && 0 <= dx && dx + width <= dstWidth && 0 <= dy && dy + height <= dstHeight
    }

    /** The first `rows` rows of the region have been copied from `src`. */
    ghost predicate Copied<T>(src: seq<T>, srcWidth: nat, srcHeight: nat,
                                    was: seq<T>, now: seq<T>, dstWidth: nat, dstHeight: nat, rows: nat)
      requires Fits(srcWidth, srcHeight, dstWidth, dstHeight) && rows <= height
      requires |src| == srcWidth * srcHeight && |was| == |now| == dstWidth * dstHeight
    {
      forall x, y :: InMap(dstWidth, dstHeight, x, y) ==>
        At(now, dstWidth, dstHeight, x, y) ==
          if Covers(x, y, rows) then At(src, srcWidth, srcHeight, x - dx + sx, y - dy + sy)
          else At(was, dstWidth, dstHeight, x, y)
    }

    lemma CopiedOneMore<T>(src: seq<T>, srcWidth: nat, srcHeight: nat,
                           was: seq<T>, now: seq<T>, dstWidth: nat, dstHeight: nat, rows: nat)
      requires Fits(srcWidth, srcHeight, dstWidth, dstHeight) && rows < height && width > 0
      requires |src| == srcWidth * srcHeight && |was| == |now| == dstWidth * dstHeight
      requires Copied(src, srcWidth, srcHeight, was, now, dstWidth, dstHeight, rows)
      ensures var s := Index(srcWidth, sx, sy + rows);
        var d := Index(dstWidth, dx, dy + rows);
        && 0 <= s && s + width <= |src| && 0 <= d && d + width <= |now|
        && |now[..d] + src[s..s + width] + now[d + width..]| == |now|
        && Copied(src, srcWidth, srcHeight, was, now[..d] + src[s..s + width] + now[d + width..],
                  dstWidth, dstHeight, rows + 1)
    {
      RowInRange(srcWidth, srcHeight, sx, sy + rows, width);
      RowInRange(dstWidth, dstHeight, dx, dy + rows, width);
      var s := Index(srcWidth, sx, sy + rows);
      var d := Index(dstWidth, dx, dy + rows);
      var row := src[s..s + width];
      RowReplaced(now, dstWidth, dstHeight, dx, dy + rows, row);
      RowIsSource(src, srcWidth, srcHeight, sx, sy + rows, width);
      hide Index, At;
    }
  }

  /** `copyMapRegion`: copy the region row by row. */
  method CopyMapRegion<T>(src: array<T>, ghost srcHeight: nat, srcWidth: nat,
                          dst: array<T>, ghost dstHeight: nat, dstWidth: nat, region: Region)
    requires dst != src && src.Length == srcWidth * srcHeight && dst.Length == dstWidth * dstHeight
    requires region.Fits(srcWidth, srcHeight, dstWidth, dstHeight)
    modifies dst
    ensures region.Copied(src[..], srcWidth, srcHeight, old(dst[..]), dst[..], dstWidth, dstHeight, region.height)
  {
    hide At, Index, Region.Copied;
    var smIndex := Index(srcWidth, region.sx, region.sy);
    var dmIndex := Index(dstWidth, region.dx, region.dy);
    NothingCopied(region, src[..], srcWidth, srcHeight, dst[..], dstWidth, dstHeight);
    for i := 0 to region.height
      invariant smIndex == Index(srcWidth, region.sx, region.sy + i)
      invariant dmIndex == Index(dstWidth, region.dx, region.dy + i)
      invariant region.Copied(src[..], srcWidth, srcHeight, old(dst[..]), dst[..], dstWidth, dstHeight, i)
    {
      NextRow(srcWidth, region.sx, region.sy + i);
      NextRow(dstWidth, region.dx, region.dy + i);
      ghost var now := dst[..];
      if region.width > 0 {
        region.CopiedOneMore(src[..], srcWidth, srcHeight, old(dst[..]), now, dstWidth, dstHeight, i);
      } else {
        NoColumnsCopied(region, src[..], srcWidth, srcHeight, old(dst[..]), now, dstWidth, dstHeight, i);
      }
      MemCpy(dst, dmIndex, src, smIndex, region.width);
      smIndex := smIndex + srcWidth;
      dmIndex := dmIndex + dstWidth;
    }
  }

  lemma NextRow(width: int, x: int, y: int)
    ensures Index(width, x, y + 1) == Index(width, x, y) + width
  {
  }

  lemma NothingCopied<T>(r: Region, src: seq<T>, srcWidth: nat, srcHeight: nat, was: seq<T>, dstWidth: nat,
                         dstHeight: nat)
    requires r.Fits(srcWidth, srcHeight, dstWidth, dstHeight)
    requires |src| == srcWidth * srcHeight && |was| == dstWidth * dstHeight
    ensures r.Copied(src, srcWidth, srcHeight, was, was, dstWidth, dstHeight, 0)
  {
  }

  lemma NoColumnsCopied<T>(r: Region, src: seq<T>, srcWidth: nat, srcHeight: nat,
                           was: seq<T>, now: seq<T>, dstWidth: nat, dstHeight: nat, rows: nat)
    requires r.Fits(srcWidth, srcHeight, dstWidth, dstHeight) && r.width == 0 && rows < r.height
    requires |src| == srcWidth * srcHeight && |was| == |now| == dstWidth * dstHeight
    requires r.Copied(src, srcWidth, srcHeight, was, now, dstWidth, dstHeight, rows)
    ensures r.Copied(src, srcWidth, srcHeight, was, now, dstWidth, dstHeight, rows + 1)
  {
    hide At;
  }

  // ----- the rolling window -----------------------------------------------

  /** `now` is `was` seen from an origin (cx, cy) cells farther on: what is
      still in view keeps its value, the rest is the default. */
  ghost predicate Shifted<T>(was: seq<T>, now: seq<T>, width: int, height: int, cx: int, cy: int, blank: T) {
    && |was| == |now| == width * height
    && forall x, y :: InMap(width, height, x, y) ==>
         At(now, width, height, x, y) ==
           if InMap(width, height, x + cx, y + cy) then At(was, width, height, x + cx, y + cy) else blank
  }

  /** The cells kept by a shift of `c` along an axis of `size` cells. */
  function KeptFrom(c: int, size: nat): int { Min(Max(c, 0), size) }

  function KeptTo(c: int, size: nat): int { Min(Max(c + size, 0), size) }

  /** Cutting the overlap out, clearing, and pasting it back is the shift. */
  lemma CutAndPaste<T>(was: seq<T>, local: seq<T>, blanks: seq<T>, now: seq<T>, w: nat, h: nat,
                       cx: int, cy: int, cw: nat, ch: nat, blank: T)
    requires |was| == |blanks| == |now| == w * h && |local| == cw * ch
    requires cw == KeptTo(cx, w) - KeptFrom(cx, w) && ch == KeptTo(cy, h) - KeptFrom(cy, h)
    requires forall x, y :: InMap(w, h, x, y) ==> At(blanks, w, h, x, y) == blank
    requires var r := Region(KeptFrom(cx, w), KeptFrom(cy, h), 0, 0, cw, ch);
      r.Fits(w, h, cw, ch) && exists junk: seq<T> :: |junk| == cw * ch && r.Copied(was, w, h, junk, local, cw, ch, ch)
    requires var r := Region(0, 0, KeptFrom(cx, w) - cx, KeptFrom(cy, h) - cy, cw, ch);
      r.Fits(cw, ch, w, h) && r.Copied(local, cw, ch, blanks, now, w, h, ch)
    ensures Shifted(was, now, w, h, cx, cy, blank)
  {
    hide At;
  }

  lemma KeptFits(cx: int, cy: int, w: nat, h: nat)
    ensures var fx, fy := KeptFrom(cx, w), KeptFrom(cy, h);
      var cw, ch := KeptTo(cx, w) - fx, KeptTo(cy, h) - fy;
      && cw >= 0 && ch >= 0
      && Region(fx, fy, 0, 0, cw, ch).Fits(w, h, cw, ch)
      && Region(0, 0, fx - cx, fy - cy, cw, ch).Fits(cw, ch, w, h)
  {
  }

  lemma AllBlank<T>(data: seq<T>, w: int, h: int, blank: T)
    requires |data| == w * h && forall i :: 0 <= i < |data| ==> data[i] == blank
    ensures forall x, y :: InMap(w, h, x, y) ==> At(data, w, h, x, y) == blank
  {
    hide Index;
    forall x, y | InMap(w, h, x, y) ensures At(data, w, h, x, y) == blank {
      IndexInRange(w, h, x, y);
    }
  }

  /** Fill a buffer with its default (`memset`). */
  method MemSet<T>(a: array<T>, value: T)
    modifies a
    ensures forall i :: 0 <= i < a.Length ==> a[i] == value
  {
    for k := 0 to a.Length
      invariant forall i :: 0 <= i < k ==> a[i] == value
    {
      a[k] := value;
    }
  }

  class Costmap2D {
    var sizeX: nat
    var sizeY: nat
    var resolution: real
    var originX: real
    var originY: real
    var costmap: array<Byte>
    var defaultValue: Byte

    ghost predicate Valid()
      reads this
    {
      costmap.Length == sizeX * sizeY && resolution > 0.0
    }

    function GetIndex(mx: int, my: int): int
      reads this`sizeX
    {
      Index(sizeX, mx, my)
    }

    /** The world coordinates of the columns. */
    function AxisX(): (a: Axis)
      reads this
      requires Valid()
      ensures a.Valid()
    {
      Axis(originX, resolution, sizeX)
    }

    /** The world coordinates of the rows. */
    function AxisY(): (a: Axis)
      reads this
      requires Valid()
      ensures a.Valid()
    {
      Axis(originY, resolution, sizeY)
    }

    /** `resetMaps`. */
    method ResetMaps()
      requires Valid()
      modifies costmap
      ensures forall i :: 0 <= i < costmap.Length ==> costmap[i] == defaultValue
    {
      MemSet(costmap, defaultValue);
    }

    /** `updateOrigin`: move the window to a new origin, keeping the overlap. */
    method UpdateOrigin(newOriginX: real, newOriginY: real)
      requires Valid()
      modifies this`originX, this`originY, costmap
      ensures Valid()
      ensures var cx := Truncate((newOriginX - old(originX)) / resolution);
        var cy := Truncate((newOriginY - old(originY)) / resolution);
        && originX == old(originX) + cx as real * resolution
        && originY == old(originY) + cy as real * resolution
        && Shifted(old(costmap[..]), costmap[..], sizeX, sizeY, cx, cy, defaultValue)
    {
      hide At, Index, Shifted, Truncate, Region.Copied, KeptFrom, KeptTo;
      var cellOx := Truncate((newOriginX - originX) / resolution);
      var cellOy := Truncate((newOriginY - originY) / resolution);
      var newGridOx := originX + cellOx as real * resolution;
      var newGridOy := originY + cellOy as real * resolution;
      var lowerLeftX, lowerLeftY := KeptFrom(cellOx, sizeX), KeptFrom(cellOy, sizeY);
      var upperRightX, upperRightY := KeptTo(cellOx, sizeX), KeptTo(cellOy, sizeY);
      KeptFits(cellOx, cellOy, sizeX, sizeY);
      var cellSizeX: nat, cellSizeY: nat := upperRightX - lowerLeftX, upperRightY - lowerLeftY;
      ghost var was := costmap[..];
      var localMap := new Byte[cellSizeX * cellSizeY](_ => 0);
      ghost var junk := localMap[..];
      CopyMapRegion(costmap, sizeY, sizeX, localMap, cellSizeY, cellSizeX,
                    Region(lowerLeftX, lowerLeftY, 0, 0, cellSizeX, cellSizeY));
      ResetMaps();
      ghost var blanks := costmap[..];
      AllBlank(blanks, sizeX, sizeY, defaultValue);
      originX := newGridOx;
      originY := newGridOy;
      var startX, startY := lowerLeftX - cellOx, lowerLeftY - cellOy;
      CopyMapRegion(localMap, cellSizeY, cellSizeX, costmap, sizeY, sizeX,
                    Region(0, 0, startX, startY, cellSizeX, cellSizeY));
      CutAndPaste(was, localMap[..], blanks, costmap[..], sizeX, sizeY, cellOx, cellOy, cellSizeX, cellSizeY,
                  defaultValue);
    }
  }

  // ----- what the rolling window means in the world -------------------------

  /** A kept cell keeps its world coordinate (one axis). */
  lemma SameWorldCoordinate(origin: real, resolution: real, c: int, m: int)
    ensures origin + ((m + c) as real + 0.5) * resolution
      == (origin + c as real * resolution) + (m as real + 0.5) * resolution
  {
  }

  /** A cell of the moved window and a cell of the old grid are the same place in
      the world if and only if they are the shift apart. */
  lemma SamePlace(axis: Axis, c: int, x: int, u: int)
    requires axis.Valid()
    ensures axis.(origin := axis.origin + c as real * axis.resolution).Centre(x) == axis.Centre(u) <==> u == x + c
  {
    var k := axis.resolution;
    TimesOrder((x + c) as real + 0.5, u as real + 0.5, k);
    assert c as real * k == Times(c as real, k);
    TimesAdds(x as real + 0.5, c as real, k);
    assert x as real + 0.5 + c as real == (x + c) as real + 0.5;
    hide Times;
  }

  /** What moving the window means in the world: a cell holds what the cell at the
      same place held, and the default if that place was not in view. */
  lemma SamePlaceSameCost<T>(was: seq<T>, now: seq<T>, axisX: Axis, axisY: Axis, cx: int, cy: int, blank: T,
                             x: int, y: int, u: int, v: int)
    requires axisX.Valid() && axisY.Valid() && Shifted(was, now, axisX.size, axisY.size, cx, cy, blank)
    requires axisX.(origin := axisX.origin + cx as real * axisX.resolution).Centre(x) == axisX.Centre(u)
    requires axisY.(origin := axisY.origin + cy as real * axisY.resolution).Centre(y) == axisY.Centre(v)
    requires InMap(axisX.size, axisY.size, x, y)
    ensures |was| == |now| == axisX.size * axisY.size
    ensures At(now, axisX.size, axisY.size, x, y)
         == if InMap(axisX.size, axisY.size, u, v) then At(was, axisX.size, axisY.size, u, v) else blank
  {
    hide At, Axis.Centre;
    SamePlace(axisX, cx, x, u);
    SamePlace(axisY, cy, y, v);
  }

  /** The new origin lies on the grid, less than one cell from the request, and
      never beyond it. */
  lemma OriginWithinOneCell(origin: real, resolution: real, request: real)
    requires resolution > 0.0
    ensures var c := Truncate((request - origin) / resolution);
      && -resolution < request - (origin + c as real * resolution) < resolution
      && AbsReal(Times(c as real, resolution)) <= AbsReal(request - origin)
  {
    var q := (request - origin) / resolution;
    TruncateNear(q);
    hide Truncate;
    Remainder(request - origin, q, Truncate(q) as real, resolution);
    TruncateIs(q);
    var c := Truncate(q) as real;
    QuotientTimes(request - origin, resolution);
    TimesMonotone(resolution, AbsReal(c), AbsReal(q));
    TimesNegates(c, resolution);
    TimesNegates(q, resolution);
    TimesSign(c, resolution);
    TimesSign(q, resolution);
    hide Truncate, Times;
  }

  lemma TruncateNear(q: real)
    ensures -1.0 < q - Truncate(q) as real < 1.0
  {
  }

  lemma Remainder(span: real, q: real, c: real, k: real)
    requires k > 0.0 && q == span / k && -1.0 < q - c < 1.0
    ensures -k < span - c * k < k
  {
    hide Times;
    QuotientTimes(span, k);
    TimesSubtracts(q, c, k);
    UnitScaled(q - c, k);
    TimesIs(c, k);
  }

  lemma UnitScaled(e: real, k: real)
    requires k > 0.0 && -1.0 < e < 1.0
    ensures -k < Times(e, k) < k
  {
    assert (1.0 - e) * k > 0.0;
    assert (1.0 + e) * k > 0.0;
  }

  /** Over any run of shifts, with the window at `at[k]` after `k` of them, a
      cell holds what the first window held at its place in the world exactly
      when that place was in view all along, and the default otherwise. */
  lemma {:induction false} RunKeepsWorld<T>(maps: seq<seq<T>>, at: seq<(int, int)>, w: int, h: int, blank: T, x: int,
                                            y: int)
    requires 0 < |maps| == |at| && |maps[0]| == w * h && InMap(w, h, x, y)
    requires ShiftRun(maps, at, w, h, blank)
    ensures |maps[|maps| - 1]| == w * h
    ensures var n := |maps| - 1;
      var ax, ay := at[n].0 + x, at[n].1 + y;
      At(maps[n], w, h, x, y) ==
        if InViewThroughout(at, w, h, ax, ay) then At(maps[0], w, h, ax - at[0].0, ay - at[0].1) else blank
  {
    hide At, Shifted, InMap;
    var n := |maps| - 1;
    if n > 0 {
      var dx, dy := at[n].0 - at[n - 1].0, at[n].1 - at[n - 1].1;
      var ax, ay := at[n].0 + x, at[n].1 + y;
      assert maps[..n][n - 1] == maps[n - 1] && at[..n][n - 1] == at[n - 1];
      assert Shifted(maps[n - 1], maps[n], w, h, dx, dy, blank);
      OneShift(maps[n - 1], maps[n], w, h, dx, dy, blank, x, y);
      assert x + dx == ax - at[n - 1].0 && y + dy == ay - at[n - 1].1;
      if InMap(w, h, x + dx, y + dy) {
        RunKeepsWorld(maps[..n], at[..n], w, h, blank, x + dx, y + dy);
        assert InViewThroughout(at, w, h, ax, ay) <==> InViewThroughout(at[..n], w, h, ax, ay);
      }
    }
  }

  /** Each map of the run is the one before it, shifted. */
  ghost predicate ShiftRun<T>(maps: seq<seq<T>>, at: seq<(int, int)>, w: int, h: int, blank: T)
    requires |maps| == |at|
  {
    forall k :: 0 < k < |maps| ==>
      Shifted(maps[k - 1], maps[k], w, h, at[k].0 - at[k - 1].0, at[k].1 - at[k - 1].1, blank)
  }

  lemma OneShift<T>(was: seq<T>, now: seq<T>, w: int, h: int, cx: int, cy: int, blank: T, x: int, y: int)
    requires Shifted(was, now, w, h, cx, cy, blank) && InMap(w, h, x, y)
    ensures |was| == |now| == w * h
    ensures At(now, w, h, x, y) == if InMap(w, h, x + cx, y + cy) then At(was, w, h, x + cx, y + cy) else blank
  {
  }

  /** World cell (ax, ay) was inside the window at every origin in `at`. */
  ghost predicate InViewThroughout(at: seq<(int, int)>, w: int, h: int, ax: int, ay: int) {
    forall k :: 0 <= k < |at| ==> InMap(w, h, ax - at[k].0, ay - at[k].1)
  }
}

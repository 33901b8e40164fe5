/** Row-major indexing of a costmap (`Costmap2D::getIndex`). */
module GridIndex {
  import opened Prelude

  /** `my * size_x_ + mx`. */
  function Index(width: int, x: int, y: int): int { y * width + x }

  predicate InMap(width: int, height: int, x: int, y: int) { 0 <= x < width && 0 <= y < height }

  /** Half-open bounds of a window of cells. */
  datatype Window = Window(x0: int, y0: int, x1: int, y1: int) {
    predicate Has(x: int, y: int) { x0 <= x < x1 && y0 <= y < y1 }

    predicate Inside(width: int, height: int) { 0 <= x0 && x1 <= width && 0 <= y0 && y1 <= height }

    /** The window widened by the radius and cut to the map. */
    function Around(radius: int, width: int, height: int): Window {
      Window(Max(0, x0 - radius), Max(0, y0 - radius), Min(width, x1 + radius), Min(height, y1 + radius))
    }
  }

  lemma IndexInRange(width: int, height: int, x: int, y: int)
    requires InMap(width, height, x, y)
    ensures 0 <= Index(width, x, y) < width * height
  {
    ProductNonNegative(y, width);
    ProductNonNegative(height - y - 1, width);
    assert height * width == y * width + width + (height - y - 1) * width;
  }

  lemma RowsApart(width: int, y: int, y': int)
    requires 0 <= width && y < y'
    ensures y * width + width <= y' * width
  {
    ProductNonNegative(y' - y - 1, width);
    assert y' * width == y * width + width + (y' - y - 1) * width;
  }

  /** Different cells have different indices. */
  lemma IndexInjective(width: int, x: int, y: int, x': int, y': int)
    requires 0 <= x < width && 0 <= x' < width
    ensures Index(width, x, y) == Index(width, x', y') <==> x == x' && y == y'
  {
    if y < y' {
      RowsApart(width, y, y');
    } else if y' < y {
      RowsApart(width, y', y);
    }
  }

  /** The entry of cell (x, y) in a row-major buffer. */
  function At<T>(data: seq<T>, width: int, height: int, x: int, y: int): T
    requires InMap(width, height, x, y) && |data| == width * height
  {
    IndexInRange(width, height, x, y);
    data[Index(width, x, y)]
  }

  /** Writing one cell changes that cell only. */
  lemma AtUpdate<T>(data: seq<T>, width: int, height: int, x: int, y: int, v: T)
    requires InMap(width, height, x, y) && |data| == width * height
    ensures 0 <= Index(width, x, y) < |data|
    ensures forall x', y' :: InMap(width, height, x', y') ==>
      At(data[Index(width, x, y) := v], width, height, x', y')
        == if x' == x && y' == y then v else At(data, width, height, x', y')
  {
    hide Index;
    IndexInRange(width, height, x, y);
    forall x', y' | InMap(width, height, x', y')
      ensures At(data[Index(width, x, y) := v], width, height, x', y')
        == if x' == x && y' == y then v else At(data, width, height, x', y')
    {
      IndexInRange(width, height, x', y');
      IndexInjective(width, x, y, x', y');
    }
  }
}

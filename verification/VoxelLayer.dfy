/** The voxel layer's rolling window (`nav2_costmap_2d::VoxelLayer`): the costs
    and the voxel columns move together. */
module VoxelMap {
  import opened Prelude
  import opened GridIndex
  import opened Costmap

  /** A voxel column: sixteen voxels marked and sixteen unknown. */
  type Column = c: int | 0 <= c < 0x1_0000_0000

  const UNKNOWN_COLUMN: Column := 0x0000_FFFF

  class VoxelLayer {
    var sizeX: nat
    var sizeY: nat
    var resolution: real
    var originX: real
    var originY: real
    var costmap: array<Byte>
    var voxelMap: array<Column>
    var defaultValue: Byte

    ghost predicate Valid()
      reads this
    {
      costmap.Length == sizeX * sizeY == voxelMap.Length && resolution > 0.0
    }

    /** `resetMaps`. */
    method ResetMaps()
      requires Valid()
      modifies costmap, voxelMap
      ensures forall x, y :: InMap(sizeX, sizeY, x, y) ==> At(costmap[..], sizeX, sizeY, x, y) == defaultValue
      ensures forall x, y :: InMap(sizeX, sizeY, x, y) ==> At(voxelMap[..], sizeX, sizeY, x, y) == UNKNOWN_COLUMN
    {
      MemSet(costmap, defaultValue);
      MemSet(voxelMap, UNKNOWN_COLUMN);
      AllBlank(costmap[..], sizeX, sizeY, defaultValue);
      AllBlank(voxelMap[..], sizeX, sizeY, UNKNOWN_COLUMN);
    }

    /** The overlap of the window and the window `cx`, `cy` cells farther on. */
    function Kept(cx: int, cy: int): Region
      reads this`sizeX, this`sizeY
    {
      var fx, fy := KeptFrom(cx, sizeX), KeptFrom(cy, sizeY);
      KeptFits(cx, cy, sizeX, sizeY);
      Region(fx, fy, 0, 0, KeptTo(cx, sizeX) - fx, KeptTo(cy, sizeY) - fy)
    }

    /** Copy the overlap of one array to a temporary one. */
    method CutOut<T>(data: array<T>, filler: T, cx: int, cy: int) returns (local: array<T>, ghost junk: seq<T>)
      requires data.Length == sizeX * sizeY
      ensures fresh(local) && local.Length == |junk| == Kept(cx, cy).width * Kept(cx, cy).height
      ensures var cut := Kept(cx, cy);
        cut.Fits(sizeX, sizeY, cut.width, cut.height)
        && cut.Copied(data[..], sizeX, sizeY, junk, local[..], cut.width, cut.height, cut.height)
    {
      hide At, Index, Region.Copied, KeptFrom, KeptTo;
      KeptFits(cx, cy, sizeX, sizeY);
      var cut := Kept(cx, cy);
      local := new T[cut.width * cut.height](_ => filler);
      junk := local[..];
      CopyMapRegion(data, sizeY, sizeX, local, cut.height, cut.width, cut);
    }

    /** Copy the overlap back, into its new place in the cleared array. */
    method PasteBack<T>(data: array<T>, local: array<T>, cx: int, cy: int, ghost was: seq<T>, ghost junk: seq<T>,
                        ghost blank: T)
      requires data != local && data.Length == sizeX * sizeY == |was|
      requires local.Length == |junk| == Kept(cx, cy).width * Kept(cx, cy).height
      requires forall x, y :: InMap(sizeX, sizeY, x, y) ==> At(data[..], sizeX, sizeY, x, y) == blank
      requires var cut := Kept(cx, cy);
        cut.Fits(sizeX, sizeY, cut.width, cut.height)
        && cut.Copied(was, sizeX, sizeY, junk, local[..], cut.width, cut.height, cut.height)
      modifies data
      ensures Shifted(was, data[..], sizeX, sizeY, cx, cy, blank)
    {
      hide At, Index, Shifted, Region.Copied, KeptFrom, KeptTo;
      KeptFits(cx, cy, sizeX, sizeY);
      var cut := Kept(cx, cy);
      ghost var blanks := data[..];
      CopyMapRegion(local, cut.height, cut.width, data, sizeY, sizeX,
                    Region(0, 0, cut.sx - cx, cut.sy - cy, cut.width, cut.height));
      CutAndPaste(was, local[..], blanks, data[..], sizeX, sizeY, cx, cy, cut.width, cut.height, blank);
    }

    /** `updateOrigin`: one and the same shift of both arrays. */
    method UpdateOrigin(newOriginX: real, newOriginY: real)
      requires Valid()
      modifies this`originX, this`originY, costmap, voxelMap
      ensures Valid()
      ensures var cx := Truncate((newOriginX - old(originX)) / resolution);
        var cy := Truncate((newOriginY - old(originY)) / resolution);
        && originX == old(originX) + cx as real * resolution
        && originY == old(originY) + cy as real * resolution
        && Shifted(old(costmap[..]), costmap[..], sizeX, sizeY, cx, cy, defaultValue)
        && Shifted(old(voxelMap[..]), voxelMap[..], sizeX, sizeY, cx, cy, UNKNOWN_COLUMN)
    {
      hide At, Shifted, Truncate, Region.Copied, Kept, Region.Fits;
      var cellOx := Truncate((newOriginX - originX) / resolution);
      var cellOy := Truncate((newOriginY - originY) / resolution);
      var newGridOx := originX + cellOx as real * resolution;
      var newGridOy := originY + cellOy as real * resolution;
      ghost var was, wasVoxels := costmap[..], voxelMap[..];
      var localMap, junk := CutOut(costmap, 0, cellOx, cellOy);
      var localVoxelMap, junkVoxels := CutOut(voxelMap, 0, cellOx, cellOy);
      ResetMaps();
      originX := newGridOx;
      originY := newGridOy;
      PasteBack(costmap, localMap, cellOx, cellOy, was, junk, defaultValue);
      PasteBack(voxelMap, localVoxelMap, cellOx, cellOy, wasVoxels, junkVoxels, UNKNOWN_COLUMN);
    }
  }
}

/** Merging costmap layers into the master costmap (`CostmapLayer`). */
module LayerMerge {
  import opened Prelude
  import opened GridIndex
  import opened Costmap

  // ----- one cell ---------------------------------------------------------

  /** `updateWithMax` on one cell: unknown layers leave the master alone. */
  function MaxOf(master: Byte, layer: Byte): Byte {
    if layer == NO_INFORMATION then master
    else if master == NO_INFORMATION || master < layer then layer
    else master
  }

  /** `updateWithAddition` on one cell: the sum saturates below inscribed. */
  function AddOf(master: Byte, layer: Byte): Byte {
    if layer == NO_INFORMATION then master
    else if master == NO_INFORMATION then layer
    else if master + layer >= INSCRIBED_INFLATED_OBSTACLE then INSCRIBED_INFLATED_OBSTACLE - 1
    else master + layer
  }

  /** `updateWithOverwrite` on one cell: a known layer replaces the master. */
  function OverwriteOf(master: Byte, layer: Byte): Byte { if layer == NO_INFORMATION then master else layer }

  /** `updateWithMaxWithoutUnknownOverwrite` on one cell: an unknown master stays. */
  function MaxKnownOf(master: Byte, layer: Byte): Byte {
    if layer != NO_INFORMATION && master != NO_INFORMATION && master < layer then layer else master
  }

  // ----- one layer over a window --------------------------------------------

  /** `now` is `was` with `op` applied to every cell of the window. */
  ghost predicate Merged(op: (Byte, Byte) -> Byte, was: seq<Byte>, layer: seq<Byte>, now: seq<Byte>,
                         width: int, height: int, win: Window)
  {
    && |was| == |now| == |layer| == width * height
    && forall x, y :: InMap(width, height, x, y) ==>
         At(now, width, height, x, y) ==
           if win.Has(x, y) then op(At(was, width, height, x, y), At(layer, width, height, x, y))
           else At(was, width, height, x, y)
  }

  /** The same, for the rows before `j` and the cells of row `j` before `i`. */
  ghost predicate MergedUpTo(op: (Byte, Byte) -> Byte, was: seq<Byte>, layer: seq<Byte>, now: seq<Byte>,
                             width: int, height: int, win: Window, i: int, j: int)
  {
    && |was| == |now| == |layer| == width * height
    && forall x, y :: InMap(width, height, x, y) ==>
         At(now, width, height, x, y) ==
           if win.Has(x, y) && (y < j || (y == j && x < i))
           then op(At(was, width, height, x, y), At(layer, width, height, x, y))
           else At(was, width, height, x, y)
  }

  lemma MergeStart(op: (Byte, Byte) -> Byte, was: seq<Byte>, layer: seq<Byte>, width: int, height: int, win: Window)
    requires |was| == |layer| == width * height
    ensures MergedUpTo(op, was, layer, was, width, height, win, win.x0, win.y0)
  {
    hide At;
  }

  lemma MergeRowEnd(op: (Byte, Byte) -> Byte, was: seq<Byte>, layer: seq<Byte>, now: seq<Byte>,
                    width: int, height: int, win: Window, i: int, j: int)
    requires MergedUpTo(op, was, layer, now, width, height, win, i, j) && i >= win.x1
    ensures MergedUpTo(op, was, layer, now, width, height, win, win.x0, j + 1)
  {
    hide At;
  }

  lemma MergeEnd(op: (Byte, Byte) -> Byte, was: seq<Byte>, layer: seq<Byte>, now: seq<Byte>,
                 width: int, height: int, win: Window, j: int)
    requires MergedUpTo(op, was, layer, now, width, height, win, win.x0, j) && j >= win.y1
    ensures Merged(op, was, layer, now, width, height, win)
  {
    hide At;
  }

  /** One more cell: the running index `it` names it, and storing the merged
      value there (or leaving it, when nothing changes) extends the merge. */
  lemma MergeCell(op: (Byte, Byte) -> Byte, was: seq<Byte>, layer: seq<Byte>, now: seq<Byte>,
                  width: int, height: int, win: Window, i: int, j: int)
    requires MergedUpTo(op, was, layer, now, width, height, win, i, j)
    requires win.Has(i, j) && win.Inside(width, height)
    ensures var it := Index(width, i, j);
      && 0 <= it < |now|
      && MergedUpTo(op, was, layer, now[it := op(now[it], layer[it])], width, height, win, i + 1, j)
  {
    hide Index;
    var it := Index(width, i, j);
    IndexInRange(width, height, i, j);
    assert now[it] == At(now, width, height, i, j) && layer[it] == At(layer, width, height, i, j);
    var v := op(now[it], layer[it]);
    AtUpdate(now, width, height, i, j, v);
    hide At;
    assert forall x, y :: InMap(width, height, x, y) && x == i && y == j ==> !(y < j || (y == j && x < i));
  }

  lemma NextInRow(width: int, i: int, j: int)
    ensures Index(width, i + 1, j) == Index(width, i, j) + 1
  {
  }

  class CostmapLayer {
    var enabled: bool
    /** The layer's own costmap (the layer is a `Costmap2D` in the code). */
    const grid: Costmap2D

    constructor (grid: Costmap2D, enabled: bool)
      ensures this.grid == grid && this.enabled == enabled
    {
      this.grid := grid;
      this.enabled := enabled;
    }

    /** `updateWithMax`. */
    method UpdateWithMax(master: Costmap2D, win: Window)
      requires grid.Valid() && master.Valid() && grid.costmap != master.costmap
      requires grid.sizeX == master.sizeX && grid.sizeY == master.sizeY
      requires win.Inside(master.sizeX, master.sizeY)
      modifies master.costmap
      ensures !enabled ==> master.costmap[..] == old(master.costmap[..])
      ensures enabled ==> Merged(MaxOf, old(master.costmap[..]), grid.costmap[..], master.costmap[..],
                                 master.sizeX, master.sizeY, win)
    {
      hide At, Index, Merged, MergedUpTo;
      if !enabled {
        return;
      }
      var masterArray, span := master.costmap, master.sizeX;
      ghost var was, layer, height := masterArray[..], grid.costmap[..], master.sizeY;
      MergeStart(MaxOf, was, layer, span, height, win);
      var j := win.y0;
      while j < win.y1
        invariant win.y0 <= j
        invariant MergedUpTo(MaxOf, was, layer, masterArray[..], span, height, win, win.x0, j)
        decreases win.y1 - j
      {
        var it := Index(span, win.x0, j);
        var i := win.x0;
        while i < win.x1
          invariant win.x0 <= i && it == Index(span, i, j)
          invariant MergedUpTo(MaxOf, was, layer, masterArray[..], span, height, win, i, j)
          decreases win.x1 - i
        {
          ghost var now := masterArray[..];
          MergeCell(MaxOf, was, layer, now, span, height, win, i, j);
          NextInRow(span, i, j);
          if grid.costmap[it] == NO_INFORMATION {
            assert now[it := MaxOf(now[it], layer[it])] == now;
            it := it + 1;
            i := i + 1;
            continue;
          }
          var oldCost := masterArray[it];
          if oldCost == NO_INFORMATION || oldCost < grid.costmap[it] {
            masterArray[it] := grid.costmap[it];
          }
          assert masterArray[..] == now[it := MaxOf(now[it], layer[it])];
          it := it + 1;
          i := i + 1;
        }
        MergeRowEnd(MaxOf, was, layer, masterArray[..], span, height, win, i, j);
        j := j + 1;
      }
      MergeEnd(MaxOf, was, layer, masterArray[..], span, height, win, j);
    }

    /** `updateWithMaxWithoutUnknownOverwrite`. */
    method UpdateWithMaxWithoutUnknownOverwrite(master: Costmap2D, win: Window)
      requires grid.Valid() && master.Valid() && grid.costmap != master.costmap
      requires grid.sizeX == master.sizeX && grid.sizeY == master.sizeY
      requires win.Inside(master.sizeX, master.sizeY)
      modifies master.costmap
      ensures !enabled ==> master.costmap[..] == old(master.costmap[..])
      ensures enabled ==> Merged(MaxKnownOf, old(master.costmap[..]), grid.costmap[..], master.costmap[..],
                                 master.sizeX, master.sizeY, win)
    {
      hide At, Index, Merged, MergedUpTo;
      if !enabled {
        return;
      }
      var masterArray, span := master.costmap, master.sizeX;
      ghost var was, layer, height := masterArray[..], grid.costmap[..], master.sizeY;
      MergeStart(MaxKnownOf, was, layer, span, height, win);
      var j := win.y0;
      while j < win.y1
        invariant win.y0 <= j
        invariant MergedUpTo(MaxKnownOf, was, layer, masterArray[..], span, height, win, win.x0, j)
        decreases win.y1 - j
      {
        var it := Index(span, win.x0, j);
        var i := win.x0;
        while i < win.x1
          invariant win.x0 <= i && it == Index(span, i, j)
          invariant MergedUpTo(MaxKnownOf, was, layer, masterArray[..], span, height, win, i, j)
          decreases win.x1 - i
        {
          ghost var now := masterArray[..];
          MergeCell(MaxKnownOf, was, layer, now, span, height, win, i, j);
          NextInRow(span, i, j);
          if grid.costmap[it] == NO_INFORMATION {
            assert now[it := MaxKnownOf(now[it], layer[it])] == now;
            it := it + 1;
            i := i + 1;
            continue;
          }
          var oldCost := masterArray[it];
          if oldCost != NO_INFORMATION && oldCost < grid.costmap[it] {
            masterArray[it] := grid.costmap[it];
          }
          assert masterArray[..] == now[it := MaxKnownOf(now[it], layer[it])];
          it := it + 1;
          i := i + 1;
        }
        MergeRowEnd(MaxKnownOf, was, layer, masterArray[..], span, height, win, i, j);
        j := j + 1;
      }
      MergeEnd(MaxKnownOf, was, layer, masterArray[..], span, height, win, j);
    }

    /** `updateWithOverwrite`. */
    method UpdateWithOverwrite(master: Costmap2D, win: Window)
      requires grid.Valid() && master.Valid() && grid.costmap != master.costmap
      requires grid.sizeX == master.sizeX && grid.sizeY == master.sizeY
      requires win.Inside(master.sizeX, master.sizeY)
      modifies master.costmap
      ensures !enabled ==> master.costmap[..] == old(master.costmap[..])
      ensures enabled ==> Merged(OverwriteOf, old(master.costmap[..]), grid.costmap[..], master.costmap[..],
                                 master.sizeX, master.sizeY, win)
    {
      hide At, Index, Merged, MergedUpTo;
      if !enabled {
        return;
      }
      var masterArray, span := master.costmap, master.sizeX;
      ghost var was, layer, height := masterArray[..], grid.costmap[..], master.sizeY;
      MergeStart(OverwriteOf, was, layer, span, height, win);
      var j := win.y0;
      while j < win.y1
        invariant win.y0 <= j
        invariant MergedUpTo(OverwriteOf, was, layer, masterArray[..], span, height, win, win.x0, j)
        decreases win.y1 - j
      {
        var it := Index(span, win.x0, j);
        var i := win.x0;
        while i < win.x1
          invariant win.x0 <= i && it == Index(span, i, j)
          invariant MergedUpTo(OverwriteOf, was, layer, masterArray[..], span, height, win, i, j)
          decreases win.x1 - i
        {
          ghost var now := masterArray[..];
          MergeCell(OverwriteOf, was, layer, now, span, height, win, i, j);
          NextInRow(span, i, j);
          if grid.costmap[it] != NO_INFORMATION {
            masterArray[it] := grid.costmap[it];
          }
          assert masterArray[..] == now[it := OverwriteOf(now[it], layer[it])];
          it := it + 1;
          i := i + 1;
        }
        MergeRowEnd(OverwriteOf, was, layer, masterArray[..], span, height, win, i, j);
        j := j + 1;
      }
      MergeEnd(OverwriteOf, was, layer, masterArray[..], span, height, win, j);
    }

    /** `updateWithAddition`. */
    method UpdateWithAddition(master: Costmap2D, win: Window)
      requires grid.Valid() && master.Valid() && grid.costmap != master.costmap
      requires grid.sizeX == master.sizeX && grid.sizeY == master.sizeY
      requires win.Inside(master.sizeX, master.sizeY)
      modifies master.costmap
      ensures !enabled ==> master.costmap[..] == old(master.costmap[..])
      ensures enabled ==> Merged(AddOf, old(master.costmap[..]), grid.costmap[..], master.costmap[..],
                                 master.sizeX, master.sizeY, win)
    {
      hide At, Index, Merged, MergedUpTo;
      if !enabled {
        return;
      }
      var masterArray, span := master.costmap, master.sizeX;
      ghost var was, layer, height := masterArray[..], grid.costmap[..], master.sizeY;
      MergeStart(AddOf, was, layer, span, height, win);
      var j := win.y0;
      while j < win.y1
        invariant win.y0 <= j
        invariant MergedUpTo(AddOf, was, layer, masterArray[..], span, height, win, win.x0, j)
        decreases win.y1 - j
      {
        var it := Index(span, win.x0, j);
        var i := win.x0;
        while i < win.x1
          invariant win.x0 <= i && it == Index(span, i, j)
          invariant MergedUpTo(AddOf, was, layer, masterArray[..], span, height, win, i, j)
          decreases win.x1 - i
        {
          ghost var now := masterArray[..];
          MergeCell(AddOf, was, layer, now, span, height, win, i, j);
          NextInRow(span, i, j);
          if grid.costmap[it] == NO_INFORMATION {
            assert now[it := AddOf(now[it], layer[it])] == now;
            it := it + 1;
            i := i + 1;
            continue;
          }
          var oldCost: int := masterArray[it];
          if oldCost == NO_INFORMATION {
            masterArray[it] := grid.costmap[it];
          } else {
            var sum: int := oldCost + grid.costmap[it];
            if sum >= INSCRIBED_INFLATED_OBSTACLE {
              masterArray[it] := INSCRIBED_INFLATED_OBSTACLE - 1;
            } else {
              masterArray[it] := sum;
            }
          }
          assert masterArray[..] == now[it := AddOf(now[it], layer[it])];
          it := it + 1;
          i := i + 1;
        }
        MergeRowEnd(AddOf, was, layer, masterArray[..], span, height, win, i, j);
        j := j + 1;
      }
      MergeEnd(AddOf, was, layer, masterArray[..], span, height, win, j);
    }
  }

  // ----- many layers on one cell ------------------------------------------------

  /** The layers `ls` merged into `m`, first to last. */
  function Fold(op: (Byte, Byte) -> Byte, m: Byte, ls: seq<Byte>): Byte {
    if ls == [] then m else op(Fold(op, m, ls[..|ls| - 1]), ls[|ls| - 1])
  }

  /** `v` is the greatest known value among `m` and `ls`, if there is one. */
  predicate GreatestKnown(v: Byte, m: Byte, ls: seq<Byte>) {
    && (v != NO_INFORMATION ==> v == m || v in ls)
    && (m != NO_INFORMATION ==> v != NO_INFORMATION && m <= v)
    && (forall l :: l in ls && l != NO_INFORMATION ==> v != NO_INFORMATION && l <= v)
  }

  /** Merging by Max is the join of all values, with unknown as bottom. */
  lemma {:induction false} MaxFoldIsJoin(m: Byte, ls: seq<Byte>)
    ensures GreatestKnown(Fold(MaxOf, m, ls), m, ls)
  {
    if ls != [] {
      var n := |ls| - 1;
      MaxFoldIsJoin(m, ls[..n]);
      assert ls == ls[..n] + [ls[n]];
    }
  }

  lemma JoinUnique(v: Byte, w: Byte, m: Byte, a: seq<Byte>, b: seq<Byte>)
    requires GreatestKnown(v, m, a) && GreatestKnown(w, m, b)
    requires forall l :: l in a <==> l in b
    ensures v == w
  {
    if v != NO_INFORMATION {
      assert w != NO_INFORMATION && v <= w;
    }
  }

  /** A container that starts unknown hides nothing and adds nothing. */
  lemma {:induction false} NestedMax(m: Byte, ls: seq<Byte>)
    ensures MaxOf(m, Fold(MaxOf, NO_INFORMATION, ls)) == Fold(MaxOf, m, ls)
  {
    if ls != [] {
      NestedMax(m, ls[..|ls| - 1]);
    }
  }

  /** Merging is joining: a value joined first is a value joined last. */
  lemma {:induction false} JoinLast(m: Byte, v: Byte, ls: seq<Byte>)
    ensures MaxOf(m, Fold(MaxOf, v, ls)) == MaxOf(Fold(MaxOf, m, ls), v)
  {
    if ls != [] {
      JoinLast(m, v, ls[..|ls| - 1]);
      MaxAssociates(m, Fold(MaxOf, v, ls[..|ls| - 1]), ls[|ls| - 1]);
      MaxExchanges(Fold(MaxOf, m, ls[..|ls| - 1]), v, ls[|ls| - 1]);
    }
  }

  lemma MaxAssociates(a: Byte, b: Byte, c: Byte)
    ensures MaxOf(a, MaxOf(b, c)) == MaxOf(MaxOf(a, b), c)
  {
  }

  lemma MaxExchanges(a: Byte, b: Byte, c: Byte)
    ensures MaxOf(MaxOf(a, b), c) == MaxOf(MaxOf(a, c), b)
  {
  }

  /** A cell adds nothing to a join exactly when it is unknown or not above it. */
  predicate AddsNothing(v: Byte, join: Byte) { v == NO_INFORMATION || (join != NO_INFORMATION && v <= join) }

  /** A container that held `v` is transparent exactly when `v` adds nothing. */
  lemma NestedMaxIff(m: Byte, v: Byte, ls: seq<Byte>)
    ensures MaxOf(m, Fold(MaxOf, v, ls)) == Fold(MaxOf, m, ls) <==> AddsNothing(v, Fold(MaxOf, m, ls))
  {
    JoinLast(m, v, ls);
    hide Fold;
  }

  /** Overwriting keeps the last known value. */
  lemma {:induction false} OverwriteFoldIsLast(m: Byte, ls: seq<Byte>, k: nat)
    requires k < |ls| && ls[k] != NO_INFORMATION
    requires forall i :: k < i < |ls| ==> ls[i] == NO_INFORMATION
    ensures Fold(OverwriteOf, m, ls) == ls[k]
  {
    if k < |ls| - 1 {
      OverwriteFoldIsLast(m, ls[..|ls| - 1], k);
    }
  }

  /** Keeping unknown cells is merging by Max on the known ones alone. */
  lemma {:induction false} MaxKnownFold(m: Byte, ls: seq<Byte>)
    ensures Fold(MaxKnownOf, m, ls) == if m == NO_INFORMATION then m else Fold(MaxOf, m, ls)
    ensures m != NO_INFORMATION ==> Fold(MaxOf, m, ls) != NO_INFORMATION
  {
    if ls != [] {
      MaxKnownFold(m, ls[..|ls| - 1]);
    }
  }

  function KnownCount(ls: seq<Byte>): nat {
    if ls == [] then 0 else KnownCount(ls[..|ls| - 1]) + (if ls[|ls| - 1] == NO_INFORMATION then 0 else 1)
  }

  function KnownSum(ls: seq<Byte>): nat {
    if ls == [] then 0
    else KnownSum(ls[..|ls| - 1]) + (if ls[|ls| - 1] == NO_INFORMATION then 0 else ls[|ls| - 1])
  }

  /** Merging by Addition into an unknown cell: a single known layer is kept
      as it is, two or more give their sum, cut at 252. */
  lemma {:induction false} AdditionFoldIsSum(ls: seq<Byte>)
    ensures Fold(AddOf, NO_INFORMATION, ls) ==
      if KnownCount(ls) == 0 then NO_INFORMATION
      else if KnownCount(ls) == 1 then KnownSum(ls)
      else Min(252, KnownSum(ls))
    ensures KnownCount(ls) == 0 ==> KnownSum(ls) == 0
    ensures KnownCount(ls) == 1 ==> KnownSum(ls) < NO_INFORMATION
  {
    if ls != [] {
      AdditionFoldIsSum(ls[..|ls| - 1]);
    }
  }

  lemma {:induction false} KnownConcat(a: seq<Byte>, b: seq<Byte>)
    ensures KnownCount(a + b) == KnownCount(a) + KnownCount(b)
    ensures KnownSum(a + b) == KnownSum(a) + KnownSum(b)
  {
    if b == [] {
      assert a + b == a;
    } else {
      var n := |b| - 1;
      assert (a + b)[..|a| + n] == a + b[..n];
      KnownConcat(a, b[..n]);
    }
  }

  lemma {:induction false} KnownPermutes(a: seq<Byte>, b: seq<Byte>)
    requires multiset(a) == multiset(b)
    ensures KnownCount(a) == KnownCount(b) && KnownSum(a) == KnownSum(b)
    decreases |a|
  {
    if a == [] {
      SameLength(a, b);
    } else {
      var n := |a| - 1;
      var k := PermutationStep(a, b);
      hide KnownCount, KnownSum;
      KnownPermutes(a[..n], b[..k] + b[k + 1..]);
      KnownConcat(b[..k], b[k + 1..]);
      KnownConcat(b[..k] + [b[k]], b[k + 1..]);
      KnownConcat(b[..k], [b[k]]);
      KnownConcat(a[..n], [b[k]]);
    }
  }

  // ----- many layers over a window -------------------------------------------------

  /** The values the layers hold for one cell. */
  function Column(layers: seq<seq<Byte>>, width: int, height: int, x: int, y: int): (c: seq<Byte>)
    requires InMap(width, height, x, y) && forall l :: l in layers ==> |l| == width * height
    ensures |c| == |layers|
    ensures forall k :: 0 <= k < |c| ==> c[k] == At(layers[k], width, height, x, y)
  {
    seq(|layers|, k requires 0 <= k < |layers| => (assert layers[k] in layers; At(layers[k], width, height, x, y)))
  }

  /** `maps[k]` is the costmap after the first `k` layers have been merged. */
  ghost predicate MergeRun(op: (Byte, Byte) -> Byte, maps: seq<seq<Byte>>, layers: seq<seq<Byte>>,
                           width: int, height: int, win: Window)
  {
    && |maps| == |layers| + 1
    && (forall l :: l in layers ==> |l| == width * height) && |maps[0]| == width * height
    && forall k :: 0 <= k < |layers| ==> Merged(op, maps[k], layers[k], maps[k + 1], width, height, win)
  }

  /** Merging layer by layer is folding, cell by cell; outside the window
      nothing changes. */
  lemma {:induction false} RunIsFold(op: (Byte, Byte) -> Byte, maps: seq<seq<Byte>>, layers: seq<seq<Byte>>,
                                     width: int, height: int, win: Window, x: int, y: int)
    requires MergeRun(op, maps, layers, width, height, win) && InMap(width, height, x, y)
    ensures |maps[|layers|]| == width * height
    ensures At(maps[|layers|], width, height, x, y) ==
      if win.Has(x, y) then Fold(op, At(maps[0], width, height, x, y), Column(layers, width, height, x, y))
      else At(maps[0], width, height, x, y)
  {
    hide At;
    var n := |layers| - 1;
    if layers != [] {
      assert forall l :: l in layers[..n] ==> l in layers;
      assert layers[n] in layers;
      RunIsFold(op, maps[..n + 1], layers[..n], width, height, win, x, y);
      assert Column(layers, width, height, x, y)[..n] == Column(layers[..n], width, height, x, y);
      assert Merged(op, maps[n], layers[n], maps[n + 1], width, height, win);
    }
  }

  /** Max: only which layers are merged matters, not their order or number. */
  lemma MaxOrderFree(maps: seq<seq<Byte>>, layers: seq<seq<Byte>>, maps': seq<seq<Byte>>, layers': seq<seq<Byte>>,
                     width: int, height: int, win: Window, x: int, y: int)
    requires MergeRun(MaxOf, maps, layers, width, height, win) && MergeRun(MaxOf, maps', layers', width, height, win)
    requires maps[0] == maps'[0] && forall l :: l in layers <==> l in layers'
    requires InMap(width, height, x, y)
    ensures |maps[|layers|]| == |maps'[|layers'|]| == width * height
    ensures At(maps[|layers|], width, height, x, y) == At(maps'[|layers'|], width, height, x, y)
  {
    hide At, MergeRun, Fold;
    RunIsFold(MaxOf, maps, layers, width, height, win, x, y);
    RunIsFold(MaxOf, maps', layers', width, height, win, x, y);
    RunLayersSized(MaxOf, maps, layers, width, height, win);
    RunLayersSized(MaxOf, maps', layers', width, height, win);
    var a, b := Column(layers, width, height, x, y), Column(layers', width, height, x, y);
    ColumnMembers(layers, layers', width, height, x, y);
    ColumnMembers(layers', layers, width, height, x, y);
    var m := At(maps[0], width, height, x, y);
    MaxFoldIsJoin(m, a);
    MaxFoldIsJoin(m, b);
    JoinUnique(Fold(MaxOf, m, a), Fold(MaxOf, m, b), m, a, b);
  }

  lemma RunLayersSized(op: (Byte, Byte) -> Byte, maps: seq<seq<Byte>>, layers: seq<seq<Byte>>,
                       width: int, height: int, win: Window)
    requires MergeRun(op, maps, layers, width, height, win)
    ensures |maps| == |layers| + 1 && |maps[0]| == width * height
    ensures forall l :: l in layers ==> |l| == width * height
  {
  }

  lemma ColumnMembers(layers: seq<seq<Byte>>, layers': seq<seq<Byte>>, width: int, height: int, x: int, y: int)
    requires InMap(width, height, x, y)
    requires forall l :: l in layers ==> |l| == width * height && l in layers'
    requires forall l :: l in layers' ==> |l| == width * height
    ensures forall v :: v in Column(layers, width, height, x, y) ==> v in Column(layers', width, height, x, y)
  {
    hide At;
    var a, b := Column(layers, width, height, x, y), Column(layers', width, height, x, y);
    forall v | v in a ensures v in b {
      var k :| 0 <= k < |a| && a[k] == v;
      assert layers[k] in layers';
      var j :| 0 <= j < |layers'| && layers'[j] == layers[k];
      assert b[j] == v;
    }
  }

  /** Max: a container gives the master, cell by cell, what its plugins would
      have given directly if and only if what the container held before adds
      nothing to that.  A container just reset is unknown everywhere; the code
      does not reset it between cycles. */
  lemma NestedContainerIsTransparent(inner: seq<seq<Byte>>, direct: seq<seq<Byte>>, layers: seq<seq<Byte>>,
                                     nested: seq<Byte>, width: int, height: int, win: Window, x: int, y: int)
    requires MergeRun(MaxOf, inner, layers, width, height, win) && MergeRun(MaxOf, direct, layers, width, height, win)
    requires InMap(width, height, x, y) && win.Has(x, y)
    requires Merged(MaxOf, direct[0], inner[|layers|], nested, width, height, win)
    ensures |direct[|layers|]| == |nested| == width * height
    ensures At(nested, width, height, x, y) == At(direct[|layers|], width, height, x, y)
      <==> AddsNothing(At(inner[0], width, height, x, y), At(direct[|layers|], width, height, x, y))
  {
    hide At, Fold, AddsNothing;
    RunIsFold(MaxOf, inner, layers, width, height, win, x, y);
    RunIsFold(MaxOf, direct, layers, width, height, win, x, y);
    NestedMaxIff(At(direct[0], width, height, x, y), At(inner[0], width, height, x, y),
                 Column(layers, width, height, x, y));
  }

  /** Outside the window the container changes nothing either way. */
  lemma NestedContainerOutside(inner: seq<seq<Byte>>, direct: seq<seq<Byte>>, layers: seq<seq<Byte>>, nested: seq<Byte>,
                               width: int, height: int, win: Window, x: int, y: int)
    requires MergeRun(MaxOf, inner, layers, width, height, win) && MergeRun(MaxOf, direct, layers, width, height, win)
    requires InMap(width, height, x, y) && !win.Has(x, y)
    requires Merged(MaxOf, direct[0], inner[|layers|], nested, width, height, win)
    ensures |direct[|layers|]| == |nested| == width * height
    ensures At(nested, width, height, x, y) == At(direct[|layers|], width, height, x, y)
    ensures At(nested, width, height, x, y) == At(direct[0], width, height, x, y)
  {
    hide At, Fold;
    RunIsFold(MaxOf, direct, layers, width, height, win, x, y);
  }

  /** Addition into an unknown cell: the order of the layers does not matter. */
  lemma AdditionOrderFree(maps: seq<seq<Byte>>, layers: seq<seq<Byte>>, maps': seq<seq<Byte>>, layers': seq<seq<Byte>>,
                          width: int, height: int, win: Window, x: int, y: int)
    requires MergeRun(AddOf, maps, layers, width, height, win) && MergeRun(AddOf, maps', layers', width, height, win)
    requires InMap(width, height, x, y) && multiset(layers) == multiset(layers')
    requires At(maps[0], width, height, x, y) == At(maps'[0], width, height, x, y) == NO_INFORMATION
    ensures |maps[|layers|]| == |maps'[|layers'|]| == width * height
    ensures At(maps[|layers|], width, height, x, y) == At(maps'[|layers'|], width, height, x, y)
  {
    hide At, Fold;
    RunIsFold(AddOf, maps, layers, width, height, win, x, y);
    RunIsFold(AddOf, maps', layers', width, height, win, x, y);
    var a, b := Column(layers, width, height, x, y), Column(layers', width, height, x, y);
    ColumnPermutes(layers, layers', width, height, x, y);
    KnownPermutes(a, b);
    AdditionFoldIsSum(a);
    AdditionFoldIsSum(b);
  }

  lemma {:induction false} ColumnPermutes(a: seq<seq<Byte>>, b: seq<seq<Byte>>, width: int, height: int, x: int, y: int)
    requires InMap(width, height, x, y) && multiset(a) == multiset(b)
    requires forall l :: l in a ==> |l| == width * height
    requires forall l :: l in b ==> |l| == width * height
    ensures multiset(Column(a, width, height, x, y)) == multiset(Column(b, width, height, x, y))
    decreases |a|
  {
    hide At, Column;
    if a == [] {
      SameLength(a, b);
    } else {
      var n := |a| - 1;
      var k := PermutationStep(a, b);
      var rest := b[..k] + b[k + 1..];
      PartsAreMembers(a, n);
      PartsAreMembers(b, k);
      ColumnPermutes(a[..n], rest, width, height, x, y);
      SameLength(a, b);
      ColumnOfParts(a, width, height, x, y, n);
      ColumnOfParts(b, width, height, x, y, k);
      BackIn(Column(a, width, height, x, y), Column(b, width, height, x, y), k, At(b[k], width, height, x, y));
    }
  }

  lemma PartsAreMembers<T>(a: seq<T>, k: nat)
    requires k < |a|
    ensures (forall l :: l in a[..k] ==> l in a) && (forall l :: l in a[..k] + a[k + 1..] ==> l in a)
  {
  }

  lemma ColumnOfParts(a: seq<seq<Byte>>, width: int, height: int, x: int, y: int, k: nat)
    requires InMap(width, height, x, y) && k < |a| && forall l :: l in a ==> |l| == width * height
    ensures Column(a[..k], width, height, x, y) == Column(a, width, height, x, y)[..k]
    ensures Column(a[..k] + a[k + 1..], width, height, x, y)
         == Column(a, width, height, x, y)[..k] + Column(a, width, height, x, y)[k + 1..]
  {
    hide At;
  }

  /** Putting one value back into two permutations. */
  lemma BackIn<T>(ca: seq<T>, cb: seq<T>, k: nat, v: T)
    requires |ca| == |cb| > k && ca[|ca| - 1] == cb[k] == v
    requires multiset(ca[..|ca| - 1]) == multiset(cb[..k] + cb[k + 1..])
    ensures multiset(ca) == multiset(cb)
  {
    LastApart(ca);
    OneApart(cb, k);
  }

  // ----- the container layer ----------------------------------------------------------

  /** How a layer is merged; any other setting does nothing. */
  datatype Combination = Overwrite | Maximum | MaximumWithoutUnknownOverwrite | Nothing

  function MergeOf(combination: Combination): (Byte, Byte) -> Byte {
    match combination
    case Overwrite => OverwriteOf
    case Maximum => MaxOf
    case MaximumWithoutUnknownOverwrite => MaxKnownOf
    case Nothing => (master, layer) => master
  }

  /** A layer inside a container, with its own setting. */
  datatype Plugin = Plugin(layer: CostmapLayer, combination: Combination)

  /** What an enabled plugin brings: its costs and how they are merged. */
  datatype Part = Part(data: seq<Byte>, combination: Combination)

  function DataOf(parts: seq<Part>): (layers: seq<seq<Byte>>)
    ensures |layers| == |parts| && forall k :: 0 <= k < |parts| ==> layers[k] == parts[k].data
  {
    seq(|parts|, k requires 0 <= k < |parts| => parts[k].data)
  }

  /** `maps[k]` is the costmap after the first `k` parts have been merged. */
  ghost predicate MixedRun(maps: seq<seq<Byte>>, parts: seq<Part>, width: int, height: int, win: Window) {
    && |maps| == |parts| + 1 && |maps[0]| == width * height
    && forall k :: 0 <= k < |parts| ==>
         Merged(MergeOf(parts[k].combination), maps[k], parts[k].data, maps[k + 1], width, height, win)
  }

  /** The parts merged into one cell, each in its own way. */
  function MixedFold(m: Byte, parts: seq<Part>, width: int, height: int, x: int, y: int): Byte
    requires InMap(width, height, x, y) && forall k :: 0 <= k < |parts| ==> |parts[k].data| == width * height
  {
    if parts == [] then m
    else
      var n := |parts| - 1;
      var before := MixedFold(m, parts[..n], width, height, x, y);
      MergeOf(parts[n].combination)(before, At(parts[n].data, width, height, x, y))
  }

  /** Merging layers that combine in different ways is folding their own rules,
      cell by cell; outside the window nothing changes. */
  lemma {:induction false} MixedRunIsFold(maps: seq<seq<Byte>>, parts: seq<Part>, width: int, height: int, win: Window,
                                          x: int, y: int)
    requires MixedRun(maps, parts, width, height, win) && InMap(width, height, x, y)
    ensures |maps[|parts|]| == width * height
    ensures forall k :: 0 <= k < |parts| ==> |parts[k].data| == width * height
    ensures At(maps[|parts|], width, height, x, y) ==
      if win.Has(x, y) then MixedFold(At(maps[0], width, height, x, y), parts, width, height, x, y)
      else At(maps[0], width, height, x, y)
  {
    hide At, MergeOf;
    var n := |parts| - 1;
    if parts != [] {
      MixedRunIsFold(maps[..n + 1], parts[..n], width, height, win, x, y);
      assert Merged(MergeOf(parts[n].combination), maps[n], parts[n].data, maps[n + 1], width, height, win);
      assert forall k :: 0 <= k < n ==> parts[..n][k] == parts[k];
    }
  }

  /** The four settings in plain terms: what merging a layer leaves in a cell of the
      window, given what the cell and the layer held. */
  lemma SettingsInPlainTerms(combination: Combination, was: seq<Byte>, layer: seq<Byte>, now: seq<Byte>,
                             width: int, height: int, win: Window, x: int, y: int)
    requires Merged(MergeOf(combination), was, layer, now, width, height, win)
    requires InMap(width, height, x, y) && win.Has(x, y)
    ensures var m, l := At(was, width, height, x, y), At(layer, width, height, x, y);
      var r := At(now, width, height, x, y);
      && (l == NO_INFORMATION ==> r == m)
      && (l != NO_INFORMATION ==>
            && (combination == Overwrite ==> r == l)
            && (combination == Maximum ==> if m == NO_INFORMATION then r == l else r == Max(m, l))
            && (combination == MaximumWithoutUnknownOverwrite ==>
                  if m == NO_INFORMATION then r == NO_INFORMATION else r == Max(m, l))
            && (combination == Nothing ==> r == m))
  {
    hide At;
  }

  /** Parts that all merge by Max make a run of Max. */
  lemma MaximumRun(maps: seq<seq<Byte>>, parts: seq<Part>, width: int, height: int, win: Window)
    requires MixedRun(maps, parts, width, height, win) && forall p :: p in parts ==> p.combination == Maximum
    ensures MergeRun(MaxOf, maps, DataOf(parts), width, height, win)
  {
    forall k | 0 <= k < |parts|
      ensures |parts[k].data| == width * height
      ensures Merged(MaxOf, maps[k], DataOf(parts)[k], maps[k + 1], width, height, win)
    {
      assert parts[k] in parts && MergeOf(parts[k].combination) == MaxOf;
      assert Merged(MergeOf(parts[k].combination), maps[k], parts[k].data, maps[k + 1], width, height, win);
    }
  }

  lemma MixedRunGrows(maps: seq<seq<Byte>>, parts: seq<Part>, part: Part, next: seq<Byte>,
                      width: int, height: int, win: Window)
    requires MixedRun(maps, parts, width, height, win)
    requires Merged(MergeOf(part.combination), maps[|parts|], part.data, next, width, height, win)
    ensures MixedRun(maps + [next], parts + [part], width, height, win)
  {
    hide Merged, MergeOf;
  }

  /** The switch over the combination method at the end of `updateCosts`, which
      a container and the layers inside it share. */
  method MergeInto(layer: CostmapLayer, combination: Combination, master: Costmap2D, win: Window)
    requires layer.grid.Valid() && master.Valid() && layer.grid.costmap != master.costmap
    requires layer.grid.sizeX == master.sizeX && layer.grid.sizeY == master.sizeY
    requires win.Inside(master.sizeX, master.sizeY)
    modifies master.costmap
    ensures !layer.enabled ==> master.costmap[..] == old(master.costmap[..])
    ensures layer.enabled ==> Merged(MergeOf(combination), old(master.costmap[..]), layer.grid.costmap[..],
                                     master.costmap[..], master.sizeX, master.sizeY, win)
  {
    hide At, Merged;
    match combination {
      case Overwrite => layer.UpdateWithOverwrite(master, win);
      case Maximum => layer.UpdateWithMax(master, win);
      case MaximumWithoutUnknownOverwrite => layer.UpdateWithMaxWithoutUnknownOverwrite(master, win);
      case Nothing =>
        NothingMerged(master.costmap[..], layer.grid.costmap[..], master.sizeX, master.sizeY, win);
    }
  }

  /** `PluginContainerLayer::updateCosts`: the plugins, each in its own way, are
      merged into the container, and the container into the master. */
  method ContainerUpdateCosts(container: CostmapLayer, combination: Combination, plugins: seq<Plugin>,
                              master: Costmap2D, win: Window)
    returns (ghost inner: seq<seq<Byte>>, ghost parts: seq<Part>)
    requires master.Valid() && container.grid.Valid() && win.Inside(master.sizeX, master.sizeY)
    requires container.grid.sizeX == master.sizeX && container.grid.sizeY == master.sizeY
    requires container.grid != master && container.grid.costmap != master.costmap
    requires forall p :: p in plugins ==>
      && p.layer.grid.Valid() && p.layer.grid.sizeX == master.sizeX && p.layer.grid.sizeY == master.sizeY
      && p.layer.grid.costmap != master.costmap && p.layer.grid.costmap != container.grid.costmap
    modifies container.grid.costmap, master.costmap
    ensures !container.enabled ==>
      master.costmap[..] == old(master.costmap[..]) && container.grid.costmap[..] == old(container.grid.costmap[..])
    ensures parts == Enabled(plugins)
    ensures container.enabled ==>
      && MixedRun(inner, parts, master.sizeX, master.sizeY, win)
      && inner[0] == old(container.grid.costmap[..]) && inner[|parts|] == container.grid.costmap[..]
      && Merged(MergeOf(combination), old(master.costmap[..]), container.grid.costmap[..], master.costmap[..],
                master.sizeX, master.sizeY, win)
  {
    hide At, Merged, MixedRun, MergeOf;
    inner, parts := [], Enabled(plugins);
    if !container.enabled {
      return;
    }
    inner := MergePlugins(container, plugins, master.sizeX, master.sizeY, win);
    MergeInto(container, combination, master, win);
  }

  /** The plugins, merged one after another into the container. */
  method MergePlugins(container: CostmapLayer, plugins: seq<Plugin>, w: nat, h: nat, win: Window)
    returns (ghost inner: seq<seq<Byte>>)
    requires container.grid.Valid() && container.grid.sizeX == w && container.grid.sizeY == h && win.Inside(w, h)
    requires forall p :: p in plugins ==>
      && p.layer.grid.Valid() && p.layer.grid.sizeX == w && p.layer.grid.sizeY == h
      && p.layer.grid.costmap != container.grid.costmap
    modifies container.grid.costmap
    ensures Enabled(plugins) == old(Enabled(plugins))
    ensures MixedRun(inner, Enabled(plugins), w, h, win) && |inner| == |Enabled(plugins)| + 1
    ensures inner[0] == old(container.grid.costmap[..])
    ensures inner[|Enabled(plugins)|] == container.grid.costmap[..]
  {
    hide At, Merged, MixedRun, MergeOf;
    MixedRunStart(container.grid.costmap[..], w, h, win);
    inner := [container.grid.costmap[..]];
    for k := 0 to |plugins|
      invariant MixedRun(inner, Enabled(plugins[..k]), w, h, win)
      invariant |inner| == |Enabled(plugins[..k])| + 1 && inner[0] == old(container.grid.costmap[..])
      invariant inner[|Enabled(plugins[..k])|] == container.grid.costmap[..]
    {
      var p := plugins[k];
      assert p in plugins;
      assert plugins[..k + 1][..k] == plugins[..k];
      ghost var done := Enabled(plugins[..k]);
      MergeInto(p.layer, p.combination, container.grid, win);
      if p.layer.enabled {
        var part := Part(p.layer.grid.costmap[..], p.combination);
        MixedRunGrows(inner, done, part, container.grid.costmap[..], w, h, win);
        inner := inner + [container.grid.costmap[..]];
      }
    }
    assert plugins[..|plugins|] == plugins;
  }

  lemma MixedRunStart(start: seq<Byte>, width: int, height: int, win: Window)
    requires |start| == width * height
    ensures MixedRun([start], [], width, height, win)
  {
  }

  lemma NothingMerged(was: seq<Byte>, layer: seq<Byte>, width: int, height: int, win: Window)
    requires |was| == |layer| == width * height
    ensures Merged(MergeOf(Nothing), was, layer, was, width, height, win)
  {
    hide At;
  }

  /** What the enabled plugins bring, in order. */
  ghost function Enabled(plugins: seq<Plugin>): seq<Part>
    reads set p | p in plugins :: p.layer, set p | p in plugins :: p.layer.grid
    reads set p | p in plugins :: p.layer.grid.costmap
  {
    if plugins == [] then []
    else
      var n := |plugins| - 1;
      var rest := Enabled(plugins[..n]);
      assert plugins[n] in plugins;
      if plugins[n].layer.enabled
      then rest + [Part(plugins[n].layer.grid.costmap[..], plugins[n].combination)] else rest
  }
}

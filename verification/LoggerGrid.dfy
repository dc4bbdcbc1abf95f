/**
 Rectangles on the logger dashboard's integer grid: overlap, the collision test,
 replacing one pane, and exchanging two panes.
 */
module LoggerGrid {
  import opened Wrappers
  import opened Sequences

  datatype Axis = X | Y {
    function Cross(): Axis {
      if X? then Y else X
    }
  }

  datatype Cell = Cell(x: int, y: int) {
    function At(axis: Axis): int {
      if axis.X? then x else y
    }
  }

  datatype Rect = Rect(x: int, y: int, w: int, h: int) {
    function Pos(axis: Axis): int {
      if axis.X? then x else y
    }

    function Size(axis: Axis): int {
      if axis.X? then w else h
    }

    function End(axis: Axis): int {
      Pos(axis) + Size(axis)
    }

    function With(axis: Axis, pos: int, size: int): Rect {
      if axis.X? then this.(x := pos, w := size) else this.(y := pos, h := size)
    }

    predicate Positive() {
      w > 0 && h > 0
    }

    /** The cell lies inside the rectangle. */
    predicate Has(c: Cell) {
      x <= c.x < x + w && y <= c.y < y + h
    }
  }

  type Items = map<string, Rect>

  /** A layout record: its panes, and the other keys every rewrite copies over. */
  datatype Layout = Layout(items: Items, extra: map<string, string>)

  /** The two half-open extents along the axis meet. */
  predicate OverlapAlong(left: Rect, right: Rect, axis: Axis) {
    left.Pos(axis) < right.End(axis) && right.Pos(axis) < left.End(axis)
  }

  predicate Overlap(left: Rect, right: Rect) {
    left.x < right.x + right.w && left.x + left.w > right.x
    && left.y < right.y + right.h && left.y + left.h > right.y
  }

  /** Two rectangles overlap exactly when they share a cell. */
  lemma OverlapIsSharedCell(left: Rect, right: Rect)
    requires left.Positive() && right.Positive()
    ensures Overlap(left, right) <==> exists c: Cell :: left.Has(c) && right.Has(c)
  {
    if Overlap(left, right) {
      var c := Cell(Max(left.x, right.x), Max(left.y, right.y));
      assert left.Has(c) && right.Has(c);
    }
  }

  predicate Present(items: Items, ids: seq<string>) {
    forall id :: id in ids ==> id in items
  }

  /** What the collision test accepts: every listed pane exists and no two entries overlap. */
  ghost predicate CollisionFree(items: Items, visible: seq<string>) {
    && Present(items, visible)
    && forall i, j :: 0 <= i < j < |visible| ==> !Overlap(items[visible[i]], items[visible[j]])
  }

  method LayoutIsCollisionFree(layout: Layout, visible: seq<string>) returns (free: bool)
    ensures free <==> CollisionFree(layout.items, visible)
  {
    for i := 0 to |visible|
      invariant forall k :: 0 <= k < i ==> visible[k] in layout.items
      invariant forall k, l :: 0 <= k < i && k < l < |visible| ==>
                  visible[l] in layout.items && !Overlap(layout.items[visible[k]], layout.items[visible[l]])
    {
      if visible[i] !in layout.items {
        return false;
      }
      var left := layout.items[visible[i]];
      for j := i + 1 to |visible|
        invariant forall l :: i < l < j ==>
                    visible[l] in layout.items && !Overlap(left, layout.items[visible[l]])
      {
        if visible[j] !in layout.items || Overlap(left, layout.items[visible[j]]) {
          return false;
        }
      }
    }
    return true;
  }

  // ----- The geometric reading of a layout -----

  ghost predicate Positive(items: Items, visible: seq<string>)
    requires Present(items, visible)
  {
    forall id :: id in visible ==> items[id].Positive()
  }

  ghost predicate Disjoint(items: Items, visible: seq<string>)
    requires Present(items, visible)
  {
    forall a, b :: a in visible && b in visible && a != b ==> !Overlap(items[a], items[b])
  }

  /** Distinct visible panes, all present, all of positive size, no two overlapping. */
  ghost predicate Arrangement(items: Items, visible: seq<string>) {
    Distinct(visible) && Present(items, visible) && Positive(items, visible) && Disjoint(items, visible)
  }

  /** Some visible pane covers the cell. */
  ghost predicate Covered(items: Items, visible: seq<string>, c: Cell)
    requires Present(items, visible)
  {
    exists id :: id in visible && items[id].Has(c)
  }

  /** The index-wise collision test says the same as disjointness of the set of panes. */
  lemma CollisionFreeIsDisjoint(items: Items, visible: seq<string>)
    requires Distinct(visible) && Present(items, visible)
    ensures CollisionFree(items, visible) <==> Disjoint(items, visible)
  {
    if CollisionFree(items, visible) {
      forall a, b | a in visible && b in visible && a != b
        ensures !Overlap(items[a], items[b])
      {
        var i :| 0 <= i < |visible| && visible[i] == a;
        var j :| 0 <= j < |visible| && visible[j] == b;
        if i < j {
          assert !Overlap(items[visible[i]], items[visible[j]]);
        } else {
          assert !Overlap(items[visible[j]], items[visible[i]]);
        }
      }
    }
  }

  /** In an arrangement a cell has at most one owner. */
  lemma OneOwner(items: Items, visible: seq<string>, a: string, b: string, c: Cell)
    requires Arrangement(items, visible)
    requires a in visible && b in visible
    requires items[a].Has(c) && items[b].Has(c)
    ensures a == b
  {
    OverlapIsSharedCell(items[a], items[b]);
  }

  // ----- Replacing and exchanging panes -----

  /** Puts one pane at a new rectangle, if the result is collision-free. */
  ghost function ReplaceItem(layout: Layout, id: string, rect: Rect, visible: seq<string>): Option<Layout> {
    if id !in layout.items then None
    else
      var candidate := layout.(items := layout.items[id := rect]);
      if CollisionFree(candidate.items, visible) then Some(candidate) else None
  }

  method ReplaceLoggerGridItem(layout: Layout, id: string, rect: Rect, visible: seq<string>)
    returns (r: Option<Layout>)
    ensures r == ReplaceItem(layout, id, rect, visible)
  {
    if id !in layout.items {
      return None;
    }
    var candidate := layout.(items := layout.items[id := rect]);
    var free := LayoutIsCollisionFree(candidate, visible);
    return if free then Some(candidate) else None;
  }

  function Area(rect: Rect): int {
    rect.w * rect.h
  }

  function OverlapArea(left: Rect, right: Rect): int {
    Max(0, Min(left.x + left.w, right.x + right.w) - Max(left.x, right.x))
    * Max(0, Min(left.y + left.h, right.y + right.h) - Max(left.y, right.y))
  }

  /** The dragged rectangle covers at least half of the smaller of the two. */
  predicate CoversHalf(dragged: Rect, other: Rect) {
    OverlapArea(dragged, other) * 2 >= Min(Area(dragged), Area(other))
  }

  /** The other visible panes that the dragged rectangle substantially covers. */
  function SwapTargets(items: Items, id: string, dragged: Rect, visible: seq<string>): (r: seq<string>)
    ensures forall t :: t in r <==> t in visible && t != id && t in items && CoversHalf(dragged, items[t])
  {
    if visible == [] then []
    else
      var rest := SwapTargets(items, id, dragged, visible[1..]);
      var head := visible[0];
      if head != id && head in items && CoversHalf(dragged, items[head]) then [head] + rest else rest
  }

  datatype Bounds = Bounds(maxX: int, maxY: int)

  predicate Within(rect: Rect, width: int, height: int) {
    rect.x >= 0 && rect.y >= 0 && rect.x + rect.w <= width && rect.y + rect.h <= height
  }

  /** The layout in which two panes have exchanged their top-left corners. */
  function Exchange(items: Items, id: string, target: string): Items
    requires id in items && target in items
  {
    items[id := items[id].(x := items[target].x, y := items[target].y)]
         [target := items[target].(x := items[id].x, y := items[id].y)]
  }

  /** Exchanges the dragged pane with the only pane it substantially covers, if that fits. */
  ghost function SwapAt(layout: Layout, id: string, requested: Cell, bounds: Bounds, visible: seq<string>)
    : Option<Layout>
  {
    if id !in layout.items then None
    else
      var item := layout.items[id];
      var targets := SwapTargets(layout.items, id, item.(x := requested.x, y := requested.y), visible);
      if |targets| != 1 then None
      else
        var items := Exchange(layout.items, id, targets[0]);
        if && Within(items[id], bounds.maxX + item.w, bounds.maxY + item.h)
           && Within(items[targets[0]], bounds.maxX + item.w, bounds.maxY + item.h)
           && CollisionFree(items, visible)
        then Some(layout.(items := items)) else None
  }

  method SwapLoggerGridItemAtPosition(layout: Layout, id: string, requested: Cell, bounds: Bounds,
                                      visible: seq<string>) returns (r: Option<Layout>)
    ensures r == SwapAt(layout, id, requested, bounds, visible)
  {
    if id !in layout.items {
      return None;
    }
    var item := layout.items[id];
    var gridWidth, gridHeight := bounds.maxX + item.w, bounds.maxY + item.h;
    var targets := SwapTargets(layout.items, id, item.(x := requested.x, y := requested.y), visible);
    if |targets| != 1 {
      return None;
    }
    var targetId := targets[0];
    assert targetId in targets;
    var target := layout.items[targetId];
    var movedItem := item.(x := target.x, y := target.y);
    var movedTarget := target.(x := item.x, y := item.y);
    if !Within(movedItem, gridWidth, gridHeight) || !Within(movedTarget, gridWidth, gridHeight) {
      return None;
    }
    var candidate := layout.(items := layout.items[id := movedItem][targetId := movedTarget]);
    var free := LayoutIsCollisionFree(candidate, visible);
    return if free then Some(candidate) else None;
  }

  /** The pane is the one other visible pane that the dragged rectangle substantially covers. */
  ghost predicate OnlyCovered(items: Items, id: string, dragged: Rect, visible: seq<string>, t: string) {
    && t in visible && t != id && t in items && CoversHalf(dragged, items[t])
    && forall u :: u in visible && u != id && u in items && CoversHalf(dragged, items[u]) ==> u == t
  }

  /** Two panes have traded corners and kept their sizes, and no other pane has moved. */
  ghost predicate Traded(before: Items, after: Items, a: string, b: string)
    requires a in before && b in before
  {
    && after.Keys == before.Keys
    && after[a] == Rect(before[b].x, before[b].y, before[a].w, before[a].h)
    && after[b] == Rect(before[a].x, before[a].y, before[b].w, before[b].h)
    && forall id :: id in before && id != a && id != b ==> after[id] == before[id]
  }

  lemma SoleTarget(items: Items, id: string, dragged: Rect, visible: seq<string>, t: string)
    requires Distinct(visible)
    ensures SwapTargets(items, id, dragged, visible) == [t] <==> OnlyCovered(items, id, dragged, visible, t)
  {
    hide CoversHalf;
    var targets := SwapTargets(items, id, dragged, visible);
    TargetsDistinct(items, id, dragged, visible);
    assert [t][0] == t;
    if OnlyCovered(items, id, dragged, visible, t) {
      AllTheSame(targets, t);
    }
  }

  lemma AllTheSame(s: seq<string>, t: string)
    requires Distinct(s) && t in s && forall u :: u in s ==> u == t
    ensures s == [t]
  {
    assert s[0] in s && s[|s| - 1] in s;
  }

  lemma {:induction false} TargetsDistinct(items: Items, id: string, dragged: Rect, visible: seq<string>)
    requires Distinct(visible)
    ensures Distinct(SwapTargets(items, id, dragged, visible))
  {
    hide CoversHalf;
    if visible != [] {
      assert forall u :: u in visible[1..] ==> u != visible[0];
      TargetsDistinct(items, id, dragged, visible[1..]);
    }
  }

  /**
   Exactly when and how a swap happens: the dragged rectangle substantially covers one other visible
   pane and no more, the two trade corners and keep their sizes, both end inside the grid, nothing else
   moves, and no two visible panes overlap.
   */
  lemma SwapExactly(layout: Layout, id: string, requested: Cell, bounds: Bounds, visible: seq<string>, after: Layout)
    requires Distinct(visible) && id in layout.items
    ensures var item := layout.items[id];
            SwapAt(layout, id, requested, bounds, visible) == Some(after) <==>
              && after.extra == layout.extra
              && CollisionFree(after.items, visible)
              && exists t :: && t in layout.items
                             && OnlyCovered(layout.items, id, item.(x := requested.x, y := requested.y), visible, t)
                             && Traded(layout.items, after.items, id, t)
                             && Within(after.items[id], bounds.maxX + item.w, bounds.maxY + item.h)
                             && Within(after.items[t], bounds.maxX + item.w, bounds.maxY + item.h)
  {
    hide CoversHalf, CollisionFree, OnlyCovered;
    var item := layout.items[id];
    var dragged := item.(x := requested.x, y := requested.y);
    var targets := SwapTargets(layout.items, id, dragged, visible);
    forall t | && t in layout.items && OnlyCovered(layout.items, id, dragged, visible, t)
               && Traded(layout.items, after.items, id, t)
      ensures targets == [t] && after.items == Exchange(layout.items, id, t)
    {
      SoleTarget(layout.items, id, dragged, visible, t);
    }
    if |targets| == 1 {
      SoleTarget(layout.items, id, dragged, visible, targets[0]);
      assert targets == [targets[0]];
    }
  }
}

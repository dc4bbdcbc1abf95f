/** Areas and bounds as what they are about: the grid cells of a rectangle. */
module GridCells {
  import opened Wrappers
  import opened LoggerGrid
  import opened PaneGraph

  /** The cells of a rectangle. */
  function Cells(r: Rect): (cells: set<Cell>)
    ensures forall c :: c in cells <==> r.Has(c)
  {
    var cells := set x: int, y: int | r.x <= x < r.x + r.w && r.y <= y < r.y + r.h :: Cell(x, y);
    assert forall c :: r.Has(c) ==> Cell(c.x, c.y) in cells;
    cells
  }

  lemma NoCells(r: Rect)
    requires r.w == 0 || r.h == 0
    ensures |Cells(r)| == 0
  {
    assert Cells(r) == {};
  }

  lemma CellsJoin(whole: Rect, a: Rect, b: Rect)
    requires forall c :: whole.Has(c) <==> a.Has(c) || b.Has(c)
    requires forall c :: !(a.Has(c) && b.Has(c))
    ensures |Cells(whole)| == |Cells(a)| + |Cells(b)|
  {
    assert Cells(whole) == Cells(a) + Cells(b) && Cells(a) !! Cells(b);
  }

  lemma {:induction false} ColumnCount(x: int, y: int, h: nat)
    ensures |Cells(Rect(x, y, 1, h))| == h
  {
    if h == 0 {
      NoCells(Rect(x, y, 1, h));
    } else {
      var last := Rect(x, y + h - 1, 1, 1);
      assert Cells(last) == {Cell(x, y + h - 1)};
      ColumnCount(x, y, h - 1);
      CellsJoin(Rect(x, y, 1, h), Rect(x, y, 1, h - 1), last);
    }
  }

  /** There are width times height of them. */
  lemma {:induction false} CellCount(r: Rect)
    requires r.w >= 0 && r.h >= 0
    ensures |Cells(r)| == r.w * r.h
    decreases r.w
  {
    hide Cells;
    if r.w == 0 {
      NoCells(r);
    } else {
      var narrower, column := Rect(r.x, r.y, r.w - 1, r.h), Rect(r.x + r.w - 1, r.y, 1, r.h);
      CellCount(narrower);
      ColumnCount(r.x + r.w - 1, r.y, r.h);
      CellsJoin(r, narrower, column);
      assert r.w * r.h == (r.w - 1) * r.h + r.h;
    }
  }

  lemma AreaIsCells(r: Rect)
    requires r.Positive()
    ensures Area(r) == |Cells(r)|
  {
    CellCount(r);
  }

  /** The overlap area counts the shared cells. */
  lemma OverlapAreaIsSharedCells(left: Rect, right: Rect)
    requires left.Positive() && right.Positive()
    ensures OverlapArea(left, right) == |Cells(left) * Cells(right)|
  {
    var x, y := Max(left.x, right.x), Max(left.y, right.y);
    var shared := Rect(x, y, Max(0, Min(left.x + left.w, right.x + right.w) - x),
                       Max(0, Min(left.y + left.h, right.y + right.h) - y));
    hide Cells;
    CellCount(shared);
    assert Cells(left) * Cells(right) == Cells(shared);
  }

  /** A pane substantially covers another when they share at least half of the smaller one's cells. */
  lemma CoversHalfExactly(dragged: Rect, other: Rect)
    requires dragged.Positive() && other.Positive()
    ensures CoversHalf(dragged, other) <==>
              var shared := |Cells(dragged) * Cells(other)|;
              2 * shared >= |Cells(dragged)| || 2 * shared >= |Cells(other)|
  {
    hide OverlapArea, Area;
    OverlapAreaIsSharedCells(dragged, other);
    AreaIsCells(dragged);
    AreaIsCells(other);
  }

  /** Within the grid: every cell is a cell of the grid. */
  lemma WithinIsCells(r: Rect, width: int, height: int)
    requires r.Positive()
    ensures Within(r, width, height) <==> forall c :: c in Cells(r) ==> 0 <= c.x < width && 0 <= c.y < height
  {
    var low, high := Cell(r.x, r.y), Cell(r.x + r.w - 1, r.y + r.h - 1);
    assert low in Cells(r) && high in Cells(r);
  }

  predicate Spans(r: Rect, axis: Axis, v: int) {
    r.Pos(axis) <= v < r.Pos(axis) + r.Size(axis)
  }

  /** Panes face each other across a line when some coordinate along the line belongs to both. */
  lemma FacesIsSharedCoordinate(items: Items, axis: Axis, a: string, b: string)
    requires a in items && b in items && items[a].Positive() && items[b].Positive()
    ensures Faces(items, axis, a, b) <==>
              exists v :: Spans(items[a], axis.Cross(), v) && Spans(items[b], axis.Cross(), v)
  {
    var v := Max(items[a].Pos(axis.Cross()), items[b].Pos(axis.Cross()));
    assert Faces(items, axis, a, b) ==> Spans(items[a], axis.Cross(), v) && Spans(items[b], axis.Cross(), v);
  }
}

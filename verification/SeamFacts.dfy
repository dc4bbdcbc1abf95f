/**
 The geometry of moving a line between two groups of panes that tile the same stretch of it: the
 cells of the two groups together stay the same, whichever way the line moves.
 */
module SeamFacts {
  import opened Wrappers
  import opened Sequences
  import opened LoggerGrid
  import opened PaneGraph
  import opened SharedBoundaries
  import opened BoundaryFacts
  import opened Splitters

  /** Both sides meet the line and tile the same stretch of it. */
  ghost predicate Seam(items: Items, b: Boundary) {
    && Present(items, b.before) && Present(items, b.after)
    && (forall id :: id in b.before ==> items[id].Positive() && items[id].End(b.axis) == b.position)
    && (forall id :: id in b.after ==> items[id].Positive() && items[id].Pos(b.axis) == b.position)
    && Tiles(items, b.axis.Cross(), Elems(b.before), b.start, b.end)
    && Tiles(items, b.axis.Cross(), Elems(b.after), b.start, b.end)
  }

  ghost predicate OnBoundary(b: Boundary, id: string) {
    id in b.before || id in b.after
  }

  /** The new position leaves every pane on the boundary some room. */
  ghost predicate Leaves(items: Items, b: Boundary, p: int)
    requires Present(items, b.before) && Present(items, b.after)
  {
    && (forall id :: id in b.before ==> items[id].Pos(b.axis) < p)
    && (forall id :: id in b.after ==> p < items[id].End(b.axis))
  }

  lemma SharedIsSeam(items: Items, visible: seq<string>, b: Boundary)
    requires Present(items, visible) && Positive(items, visible)
    requires IsSharedBoundary(items, visible, b)
    ensures Seam(items, b)
  {
    hide IsComponent, Tiles;
    BoundaryComponent(items, visible, b);
    forall id | id in b.before ensures id in items && items[id].Positive() && items[id].End(b.axis) == b.position {
      assert id in Elems(b.before);
      assert id in Ending(items, visible, b.axis, b.position);
    }
    forall id | id in b.after ensures id in items && items[id].Positive() && items[id].Pos(b.axis) == b.position {
      assert id in Elems(b.after);
      assert id in Starting(items, visible, b.axis, b.position);
    }
  }

  /** Inside a rectangle, along both axes. */
  lemma HasAlong(r: Rect, axis: Axis, c: Cell)
    ensures r.Has(c) <==> r.Pos(axis) <= c.At(axis) < r.End(axis)
                          && r.Pos(axis.Cross()) <= c.At(axis.Cross()) < r.End(axis.Cross())
  {
  }

  /** Where each pane is after the line has moved to p. */
  lemma ShiftedPane(items: Items, b: Boundary, p: int, id: string)
    requires Seam(items, b) && id in items
    ensures id in Shift(items, b, p)
    ensures var r := Shift(items, b, p)[id];
            if id in b.before then r == items[id].With(b.axis, items[id].Pos(b.axis), p - items[id].Pos(b.axis))
            else if id in b.after then r == items[id].With(b.axis, p, items[id].End(b.axis) - p)
            else r == items[id]
  {
    hide Tiles;
    assert id in Elems(b.before) <==> id in b.before;
    assert id in Elems(b.after) <==> id in b.after;
  }

  lemma WithAlong(r: Rect, axis: Axis, pos: int, size: int)
    ensures var w := r.With(axis, pos, size);
            && w.Pos(axis) == pos && w.Size(axis) == size
            && w.Pos(axis.Cross()) == r.Pos(axis.Cross()) && w.Size(axis.Cross()) == r.Size(axis.Cross())
  {
  }

  /** Somebody on the other side stands at this height of the line. */
  lemma Opposite(items: Items, b: Boundary, v: int) returns (before: string, after: string)
    requires Seam(items, b) && b.start <= v < b.end
    ensures before in b.before && items[before].Pos(b.axis.Cross()) <= v < items[before].End(b.axis.Cross())
    ensures after in b.after && items[after].Pos(b.axis.Cross()) <= v < items[after].End(b.axis.Cross())
  {
    assert Spanned(items, b.axis.Cross(), Elems(b.before), v);
    assert Spanned(items, b.axis.Cross(), Elems(b.after), v);
    before :| before in Elems(b.before) && items[before].Pos(b.axis.Cross()) <= v < items[before].End(b.axis.Cross());
    after :| after in Elems(b.after) && items[after].Pos(b.axis.Cross()) <= v < items[after].End(b.axis.Cross());
  }

  lemma Stretch(items: Items, b: Boundary, id: string)
    requires Seam(items, b) && OnBoundary(b, id)
    ensures b.start <= items[id].Pos(b.axis.Cross()) && items[id].End(b.axis.Cross()) <= b.end
  {
    assert id in Elems(b.before) || id in Elems(b.after);
  }

  /**
   Every cell of a pane whose edge has moved belonged to a pane of the boundary before. The line may
   even move so far that the panes it moves over are left without room.
   */
  lemma MovedCellWasOurs(items: Items, b: Boundary, p: int, id: string, c: Cell) returns (owner: string)
    requires Seam(items, b) && id in items && OnBoundary(b, id)
    requires id in b.before ==> forall o :: o in b.after ==> p <= items[o].End(b.axis)
    requires id in b.after ==> forall o :: o in b.before ==> items[o].Pos(b.axis) <= p
    requires id in Shift(items, b, p) && Shift(items, b, p)[id].Has(c)
    ensures OnBoundary(b, owner) && owner in items && items[owner].Has(c)
  {
    hide Tiles, Shift;
    var cross := b.axis.Cross();
    ShiftedPane(items, b, p, id);
    HasAlong(Shift(items, b, p)[id], b.axis, c);
    Stretch(items, b, id);
    if id in b.before {
      WithAlong(items[id], b.axis, items[id].Pos(b.axis), p - items[id].Pos(b.axis));
    } else {
      WithAlong(items[id], b.axis, p, items[id].End(b.axis) - p);
    }
    assert b.start <= c.At(cross) < b.end;
    var before, after := Opposite(items, b, c.At(cross));
    owner := if items[id].Has(c) then id else if id in b.before then after else before;
    HasAlong(items[id], b.axis, c);
    HasAlong(items[owner], b.axis, c);
  }

  /** Moving the line keeps a seam, now at the new position. */
  lemma ShiftKeepsSeam(items: Items, b: Boundary, p: int)
    requires Seam(items, b) && Leaves(items, b, p)
    ensures Seam(Shift(items, b, p), b.(position := p))
  {
    var after := Shift(items, b, p);
    var cross := b.axis.Cross();
    forall id | id in items
      ensures && id in after && after[id].Pos(cross) == items[id].Pos(cross)
              && after[id].End(cross) == items[id].End(cross)
    {
      ShiftedPane(items, b, p, id);
    }
    forall id | id in b.before
      ensures id in after && after[id].Positive() && after[id].End(b.axis) == p
    {
      ShiftedPane(items, b, p, id);
    }
    forall id | id in b.after
      ensures id in after && after[id].Positive() && after[id].Pos(b.axis) == p
    {
      ShiftedPane(items, b, p, id);
    }
    TilesOnlyCross(items, after, cross, Elems(b.before), b.start, b.end);
    TilesOnlyCross(items, after, cross, Elems(b.after), b.start, b.end);
  }

  /** A tiling depends on nothing but the extents along its own axis. */
  lemma TilesOnlyCross(items: Items, items': Items, axis: Axis, ids: set<string>, start: int, end: int)
    requires Known(items, ids) && Known(items', ids)
    requires forall id :: id in ids ==>
               items'[id].Pos(axis) == items[id].Pos(axis) && items'[id].End(axis) == items[id].End(axis)
    requires Tiles(items, axis, ids, start, end)
    ensures Tiles(items', axis, ids, start, end)
  {
    forall v | start <= v < end ensures Spanned(items', axis, ids, v) {
      assert Spanned(items, axis, ids, v);
    }
  }

  /** Two moves in a row are the second move alone. */
  lemma ShiftTwice(items: Items, b: Boundary, p: int, q: int)
    requires Seam(items, b) && Leaves(items, b, p)
    ensures Shift(Shift(items, b, p), b.(position := p), q) == Shift(items, b, q)
  {
    hide Tiles, Shift;
    ShiftKeepsSeam(items, b, p);
    var once := Shift(items, b, p);
    ShiftKeys(items, b, p);
    ShiftKeys(items, b, q);
    ShiftKeys(once, b.(position := p), q);
    forall id | id in items
      ensures Shift(once, b.(position := p), q)[id] == Shift(items, b, q)[id]
    {
      ShiftedPane(items, b, p, id);
      ShiftedPane(items, b, q, id);
      ShiftedPane(once, b.(position := p), q, id);
    }
  }

  lemma ShiftKeys(items: Items, b: Boundary, p: int)
    ensures Shift(items, b, p).Keys == items.Keys
  {
  }

  /** Moving the line back restores every pane. */
  lemma ShiftBack(items: Items, b: Boundary, p: int)
    requires Seam(items, b) && Leaves(items, b, p)
    ensures Shift(Shift(items, b, p), b.(position := p), b.position) == items
  {
    hide Tiles, Shift;
    ShiftTwice(items, b, p, b.position);
    ShiftKeys(items, b, b.position);
    forall id | id in items ensures Shift(items, b, b.position)[id] == items[id] {
      ShiftedPane(items, b, b.position, id);
    }
  }

  // ----- In a whole layout -----

  /** Half of the disjointness argument: a moved pane against any other. */
  lemma MovedPaneTouchesNobody(items: Items, visible: seq<string>, b: Boundary, p: int, a: string, o: string)
    requires Arrangement(items, visible) && Seam(items, b) && Leaves(items, b, p)
    requires forall id :: OnBoundary(b, id) ==> id in visible
    requires a in visible && o in visible && a != o && OnBoundary(b, a)
    ensures a in Shift(items, b, p) && o in Shift(items, b, p)
    ensures !Overlap(Shift(items, b, p)[a], Shift(items, b, p)[o])
  {
    hide Tiles, Shift;
    ShiftedPane(items, b, p, a);
    ShiftedPane(items, b, p, o);
    var after := Shift(items, b, p);
    ShiftKeepsSeam(items, b, p);
    if Overlap(after[a], after[o]) {
      OverlapIsSharedCell(after[a], after[o]);
      var c: Cell :| after[a].Has(c) && after[o].Has(c);
      HasAlong(after[a], b.axis, c);
      HasAlong(after[o], b.axis, c);
      if OnBoundary(b, o) {
        SameSideApart(after, b.(position := p), a, o, c);
      } else {
        var owner := MovedCellWasOurs(items, b, p, a, c);
        OneOwner(items, visible, owner, o, c);
      }
    }
  }

  /** No cell belongs to two panes of one seam. */
  lemma SameSideApart(items: Items, b: Boundary, a: string, o: string, c: Cell)
    requires Seam(items, b) && a != o && OnBoundary(b, a) && OnBoundary(b, o)
    ensures !(items[a].Has(c) && items[o].Has(c))
  {
    if items[a].Has(c) && items[o].Has(c) {
      HasAlong(items[a], b.axis, c);
      HasAlong(items[o], b.axis, c);
      assert (a in Elems(b.before) && o in Elems(b.before)) || (a in Elems(b.after) && o in Elems(b.after));
      assert OverlapAlong(items[a], items[o], b.axis.Cross());
    }
  }

  /** Moving the line keeps an arrangement. */
  lemma ShiftKeepsArrangement(items: Items, visible: seq<string>, b: Boundary, p: int)
    requires Arrangement(items, visible) && Seam(items, b) && Leaves(items, b, p)
    requires forall id :: OnBoundary(b, id) ==> id in visible
    ensures Arrangement(Shift(items, b, p), visible)
  {
    hide Tiles, Shift, Overlap;
    var after := Shift(items, b, p);
    ShiftKeepsSeam(items, b, p);
    forall id | id in visible ensures id in after && after[id].Positive() {
      ShiftedPane(items, b, p, id);
    }
    forall a, o | a in visible && o in visible && a != o ensures !Overlap(after[a], after[o]) {
      if OnBoundary(b, a) {
        MovedPaneTouchesNobody(items, visible, b, p, a, o);
      } else if OnBoundary(b, o) {
        MovedPaneTouchesNobody(items, visible, b, p, o, a);
        OverlapSymmetric(after[a], after[o]);
      } else {
        ShiftedPane(items, b, p, a);
        ShiftedPane(items, b, p, o);
      }
    }
  }

  lemma OverlapSymmetric(l: Rect, r: Rect)
    ensures Overlap(l, r) <==> Overlap(r, l)
  {
  }

  /** A cell covered after the move was covered before it. */
  lemma CoveredWasCovered(items: Items, visible: seq<string>, b: Boundary, p: int, c: Cell)
    requires Present(items, visible) && Seam(items, b) && Leaves(items, b, p)
    requires forall id :: OnBoundary(b, id) ==> id in visible
    requires Present(Shift(items, b, p), visible)
    requires Covered(Shift(items, b, p), visible, c)
    ensures Covered(items, visible, c)
  {
    hide Tiles, Shift;
    var id :| id in visible && Shift(items, b, p)[id].Has(c);
    ShiftedPane(items, b, p, id);
    if OnBoundary(b, id) {
      var owner := MovedCellWasOurs(items, b, p, id, c);
    }
  }

  /** Moving the line leaves the covered cells exactly as they were. */
  lemma ShiftConservesCells(items: Items, visible: seq<string>, b: Boundary, p: int)
    requires Present(items, visible) && Seam(items, b) && Leaves(items, b, p)
    requires forall id :: OnBoundary(b, id) ==> id in visible
    ensures Present(Shift(items, b, p), visible)
    ensures forall c :: Covered(Shift(items, b, p), visible, c) <==> Covered(items, visible, c)
  {
    hide Tiles, Shift;
    var after, moved := Shift(items, b, p), b.(position := p);
    ShiftKeys(items, b, p);
    ShiftKeepsSeam(items, b, p);
    ShiftBack(items, b, p);
    assert Leaves(after, moved, b.position) by {
      forall id | OnBoundary(b, id) ensures id in b.before ==> after[id].Pos(b.axis) < b.position
                                    ensures id in b.after ==> b.position < after[id].End(b.axis) {
        ShiftedPane(items, b, p, id);
      }
    }
    forall c ensures Covered(after, visible, c) <==> Covered(items, visible, c) {
      if Covered(after, visible, c) {
        CoveredWasCovered(items, visible, b, p, c);
      }
      if Covered(items, visible, c) {
        CoveredWasCovered(after, visible, moved, b.position, c);
      }
    }
  }
}

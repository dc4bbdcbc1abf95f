/** What docking a pane at an edge of another guarantees, for every layout and every pair of panes. */
module DockFacts {
  import opened Wrappers
  import opened Sequences
  import opened LoggerGrid
  import opened SharedBoundaries
  import opened BoundaryFacts
  import opened Splitters
  import opened SeamFacts
  import opened ResizeFacts

  function Without(visible: seq<string>, id: string): seq<string> {
    Select(visible, Elems(visible) - {id})
  }

  // ----- Healing the vacated place -----

  /** The line a one-pane boundary moves to when that pane goes: the pane's far edge. */
  function FarEdge(items: Items, b: Boundary, moving: string): int
    requires moving in items
  {
    if moving in b.before then items[moving].Pos(b.axis) else items[moving].End(b.axis)
  }

  /** Healing is moving the line to the leaving pane's far edge, for everyone but that pane. */
  lemma HealIsShift(items: Items, b: Boundary, moving: string, id: string)
    requires Seam(items, b) && AloneOn(b, moving) && moving in items
    requires id in items && id != moving
    ensures id in Shift(items, b, FarEdge(items, b, moving))
    ensures Heal(items, Some(b), moving)[id] == Shift(items, b, FarEdge(items, b, moving))[id]
  {
    hide Tiles, Shift;
    assert moving in b.before || moving in b.after;
    ShiftedPane(items, b, FarEdge(items, b, moving), id);
    assert id in Elems(b.before) <==> id in b.before;
    assert id in Elems(b.after) <==> id in b.after;
  }

  /** A cell of a healed neighbour belonged to the boundary before, and nobody else may claim it. */
  lemma HealedCellWasOurs(items: Items, b: Boundary, moving: string, id: string, c: Cell) returns (owner: string)
    requires Seam(items, b) && AloneOn(b, moving) && moving in items
    requires id in items && id != moving && OnBoundary(b, id)
    requires Heal(items, Some(b), moving)[id].Has(c)
    ensures OnBoundary(b, owner) && owner in items && items[owner].Has(c)
  {
    hide Tiles, Shift, Heal;
    HealIsShift(items, b, moving, id);
    owner := MovedCellWasOurs(items, b, FarEdge(items, b, moving), id, c);
  }

  /** Where a healed neighbour stands. */
  lemma HealedPane(items: Items, b: Boundary, moving: string, id: string)
    requires Seam(items, b) && AloneOn(b, moving) && moving in items
    requires id in items && id != moving
    ensures var r := Heal(items, Some(b), moving)[id];
            && (!OnBoundary(b, id) ==> r == items[id])
            && (OnBoundary(b, id) ==>
                 && r.Positive() && r.w >= items[id].w && r.h >= items[id].h
                 && r.Pos(b.axis.Cross()) == items[id].Pos(b.axis.Cross())
                 && r.End(b.axis.Cross()) == items[id].End(b.axis.Cross())
                 && r.Pos(b.axis) == Min(items[id].Pos(b.axis), items[moving].Pos(b.axis))
                 && r.End(b.axis) == Max(items[id].End(b.axis), items[moving].End(b.axis)))
  {
    hide Tiles, Shift;
    assert OnBoundary(b, moving);
    assert id in Elems(b.before) <==> id in b.before;
    assert id in Elems(b.after) <==> id in b.after;
  }

  lemma HealedPairApart(items: Items, visible: seq<string>, b: Boundary, moving: string, a: string, o: string)
    requires Arrangement(items, visible) && Seam(items, b) && AloneOn(b, moving) && moving in visible
    requires forall id :: OnBoundary(b, id) ==> id in visible
    requires a in visible && o in visible && a != o && a != moving && o != moving && OnBoundary(b, a)
    ensures !Overlap(Heal(items, Some(b), moving)[a], Heal(items, Some(b), moving)[o])
  {
    hide Tiles, Heal;
    var healed := Heal(items, Some(b), moving);
    HealedPane(items, b, moving, a);
    HealedPane(items, b, moving, o);
    if Overlap(healed[a], healed[o]) {
      assert healed[a].Positive() && healed[o].Positive();
      OverlapIsSharedCell(healed[a], healed[o]);
      var c: Cell :| healed[a].Has(c) && healed[o].Has(c);
      if OnBoundary(b, o) {
        HasAlong(healed[a], b.axis, c);
        HasAlong(healed[o], b.axis, c);
        SameSideCross(items, b, moving, a, o);
      } else {
        var owner := HealedCellWasOurs(items, b, moving, a, c);
        OneOwner(items, visible, owner, o, c);
      }
    }
  }

  /** The panes that stay on a one-pane boundary are all on one side, so they stand side by side. */
  lemma SameSideCross(items: Items, b: Boundary, moving: string, a: string, o: string)
    requires Seam(items, b) && AloneOn(b, moving)
    requires OnBoundary(b, a) && OnBoundary(b, o) && a != o && a != moving && o != moving
    ensures !OverlapAlong(items[a], items[o], b.axis.Cross())
  {
    assert (a in Elems(b.before) && o in Elems(b.before)) || (a in Elems(b.after) && o in Elems(b.after));
  }

  /** The other panes still form an arrangement once the vacated place is healed. */
  lemma HealedArrangement(items: Items, visible: seq<string>, b: Boundary, moving: string)
    requires Arrangement(items, visible) && Seam(items, b) && AloneOn(b, moving) && moving in visible
    requires forall id :: OnBoundary(b, id) ==> id in visible
    ensures Arrangement(Heal(items, Some(b), moving), Without(visible, moving))
  {
    hide Tiles, Heal, Overlap, Select, Seam;
    var healed, others := Heal(items, Some(b), moving), Without(visible, moving);
    SelectDistinct(visible, Elems(visible) - {moving});
    forall id | id in others ensures healed[id].Positive() {
      HealedPane(items, b, moving, id);
    }
    forall a, o | a in others && o in others && a != o ensures !Overlap(healed[a], healed[o]) {
      if OnBoundary(b, a) {
        HealedPairApart(items, visible, b, moving, a, o);
      } else if OnBoundary(b, o) {
        HealedPairApart(items, visible, b, moving, o, a);
        OverlapSymmetric(healed[a], healed[o]);
      } else {
        HealedPane(items, b, moving, a);
        HealedPane(items, b, moving, o);
      }
    }
  }

  /** Healing covers exactly the cells that were covered, now without the leaving pane. */
  lemma HealConservesCell(items: Items, visible: seq<string>, b: Boundary, moving: string, c: Cell)
    requires Arrangement(items, visible) && Seam(items, b) && AloneOn(b, moving) && moving in visible
    requires forall id :: OnBoundary(b, id) ==> id in visible
    ensures Present(Heal(items, Some(b), moving), Without(visible, moving))
    ensures Covered(Heal(items, Some(b), moving), Without(visible, moving), c) <==> Covered(items, visible, c)
  {
    hide Tiles, Heal, Overlap, Select, Disjoint;
    var healed, others := Heal(items, Some(b), moving), Without(visible, moving);
    if Covered(healed, others, c) {
      var id :| id in others && healed[id].Has(c);
      HealedPane(items, b, moving, id);
      if OnBoundary(b, id) {
        var owner := HealedCellWasOurs(items, b, moving, id, c);
      }
    }
    if Covered(items, visible, c) {
      var id :| id in visible && items[id].Has(c);
      var heir := id;
      if id == moving {
        heir := HeirOf(items, b, moving, c);
      } else {
        HealedPane(items, b, moving, id);
        HasAlong(items[id], b.axis, c);
        HasAlong(healed[id], b.axis, c);
      }
      assert heir in others && healed[heir].Has(c);
    }
  }

  /** A cell of the leaving pane falls to the neighbour across the line. */
  lemma HeirOf(items: Items, b: Boundary, moving: string, c: Cell) returns (heir: string)
    requires Seam(items, b) && AloneOn(b, moving) && moving in items && items[moving].Has(c)
    ensures OnBoundary(b, heir) && heir != moving && heir in items
    ensures Heal(items, Some(b), moving)[heir].Has(c)
  {
    hide Tiles, Heal;
    HasAlong(items[moving], b.axis, c);
    assert OnBoundary(b, moving);
    Stretch(items, b, moving);
    var before, after := Opposite(items, b, c.At(b.axis.Cross()));
    heir := if moving in b.before then after else before;
    HealedPane(items, b, moving, heir);
    HasAlong(Heal(items, Some(b), moving)[heir], b.axis, c);
  }

  /** The vacated layout: everyone else stands in an arrangement that covers what was covered. */
  lemma VacatedFacts(items: Items, visible: seq<string>, minimums: Minimums, moving: string)
    requires Standing(items, visible, minimums) && moving in visible
    ensures Arrangement(Vacated(items, visible, moving), Without(visible, moving))
    ensures forall c :: Covered(Vacated(items, visible, moving), Without(visible, moving), c) <==>
              if FormerBoundary(items, visible, moving).Some? then Covered(items, visible, c)
              else Covered(items, visible, c) && !items[moving].Has(c)
    ensures forall id :: id in visible && id != moving ==>
              && Vacated(items, visible, moving)[id].w >= items[id].w
              && Vacated(items, visible, moving)[id].h >= items[id].h
    ensures forall id :: id in items && id !in visible ==> Vacated(items, visible, moving)[id] == items[id]
  {
    hide Derived, IsSharedBoundary, Heal, Seam, Covered;
    var former := FormerBoundary(items, visible, moving);
    if former.Some? {
      var b := former.value;
      DerivedHasSides(items, visible, minimums, b);
      SharedIsSeam(items, visible, b);
      HealedArrangement(items, visible, b, moving);
      forall c
        ensures Covered(Heal(items, former, moving), Without(visible, moving), c) <==> Covered(items, visible, c)
      {
        HealConservesCell(items, visible, b, moving, c);
      }
      forall id | id in items && id != moving
        ensures var r := Heal(items, former, moving)[id];
                (id in visible ==> r.w >= items[id].w && r.h >= items[id].h) && (id !in visible ==> r == items[id])
      {
        HealedPane(items, b, moving, id);
      }
    } else {
      assert Heal(items, former, moving) == items by { HealNothing(items, moving); }
      SelectDistinct(visible, Elems(visible) - {moving});
      forall c ensures Covered(items, Without(visible, moving), c)
                       <==> Covered(items, visible, c) && !items[moving].Has(c)
      {
        CoveredWithout(items, visible, moving, c);
      }
    }
  }

  lemma HealNothing(items: Items, moving: string)
    requires moving in items
    ensures Heal(items, None, moving) == items
  {
  }

  /** Taking a pane away uncovers exactly its own cells. */
  lemma CoveredWithout(items: Items, visible: seq<string>, moving: string, c: Cell)
    requires Arrangement(items, visible) && moving in visible
    ensures Covered(items, Without(visible, moving), c) <==> Covered(items, visible, c) && !items[moving].Has(c)
  {
    hide Select, Overlap;
    if Covered(items, Without(visible, moving), c) {
      var id :| id in Without(visible, moving) && items[id].Has(c);
      if items[moving].Has(c) {
        OneOwner(items, visible, id, moving, c);
      }
    }
    if Covered(items, visible, c) && !items[moving].Has(c) {
      var id :| id in visible && items[id].Has(c);
      assert id in Without(visible, moving);
    }
  }

  // ----- Splitting the target -----

  /** The cut leaves each side its minimum, no allowed cut is nearer to the middle, and of two it is the larger. */
  lemma CutIsFairest(size: int, firstMin: int, secondMin: int, other: int)
    requires firstMin + secondMin <= size
    requires firstMin <= other <= size - secondMin
    ensures firstMin <= FirstSize(size, firstMin, secondMin) <= size - secondMin
    ensures Abs(2 * FirstSize(size, firstMin, secondMin) - size) <= Abs(2 * other - size)
    ensures Abs(2 * FirstSize(size, firstMin, secondMin) - size) == Abs(2 * other - size) ==>
              other <= FirstSize(size, firstMin, secondMin)
  {
    HalfRounded(size);
  }

  lemma HalfRounded(size: int)
    ensures 2 * Round(size as real / 2.0) == if size % 2 == 0 then size else size + 1
  {
    var h := size / 2;
    if size % 2 == 0 {
      assert size as real / 2.0 == h as real;
      RoundInt(h);
    } else {
      assert size as real / 2.0 + 0.5 == (h + 1) as real;
    }
  }

  /** A cell of the rectangle is in exactly one of the two pieces, and the pieces have nothing else. */
  lemma CutPartitions(rect: Rect, axis: Axis, firstSize: int, c: Cell)
    requires rect.Positive() && 0 < firstSize < rect.Size(axis)
    ensures var first := rect.With(axis, rect.Pos(axis), firstSize);
            var second := rect.With(axis, rect.Pos(axis) + firstSize, rect.Size(axis) - firstSize);
            && (rect.Has(c) <==> first.Has(c) || second.Has(c))
            && !(first.Has(c) && second.Has(c))
            && first.Positive() && second.Positive()
  {
    HasAlong(rect, axis, c);
  }

  ghost predicate CutInTwo(rect: Rect, first: Rect, second: Rect) {
    && first.Positive() && second.Positive()
    && forall c :: (rect.Has(c) <==> first.Has(c) || second.Has(c)) && !(first.Has(c) && second.Has(c))
  }

  /** Replacing a pane by two pieces of it, one for a newcomer, keeps an arrangement and its cells. */
  lemma SplitKeepsArrangement(items: Items, items': Items, visible: seq<string>, newcomer: string, target: string)
    requires Distinct(visible) && newcomer in visible && target in visible && newcomer != target
    requires Arrangement(items, Without(visible, newcomer))
    requires target in items && newcomer in items' && target in items'
    requires CutInTwo(items[target], items'[newcomer], items'[target])
    requires forall id :: id in visible && id != newcomer && id != target ==> id in items' && items'[id] == items[id]
    ensures Arrangement(items', visible)
    ensures forall c :: Covered(items', visible, c) <==> Covered(items, Without(visible, newcomer), c)
  {
    hide Select, Overlap;
    var others := Without(visible, newcomer);
    assert target in others;
    forall a, o | a in visible && o in visible && a != o ensures !Overlap(items'[a], items'[o]) {
      if Overlap(items'[a], items'[o]) {
        assert items'[a].Positive() && items'[o].Positive();
        OverlapIsSharedCell(items'[a], items'[o]);
        var c: Cell :| items'[a].Has(c) && items'[o].Has(c);
        var oldA, oldO := if a == newcomer then target else a, if o == newcomer then target else o;
        assert items[oldA].Has(c) && items[oldO].Has(c);
        OneOwner(items, others, oldA, oldO, c);
      }
    }
    forall c ensures Covered(items', visible, c) <==> Covered(items, others, c) {
      if Covered(items', visible, c) {
        var id :| id in visible && items'[id].Has(c);
        assert items[if id == newcomer then target else id].Has(c);
      }
      if Covered(items, others, c) {
        var id :| id in others && items[id].Has(c);
        assert items'[if id == target && items'[newcomer].Has(c) then newcomer else id].Has(c);
      }
    }
  }

  // ----- Docking -----

  /** The layout docking proposes before its final collision test. */
  ghost function Docked(items: Items, visible: seq<string>, minimums: Minimums, moving: string, target: string,
                        edge: Edge): Items
    requires Present(items, visible) && HasMinimums(minimums, visible)
    requires moving in visible && target in visible
  {
    var healed := Vacated(items, visible, moving);
    var axis := EdgeAxis(edge);
    var first := if edge.Left? || edge.Top? then moving else target;
    var second := if first == moving then target else moving;
    var firstSize := FirstSize(healed[target].Size(axis), minimums[first].Size(axis), minimums[second].Size(axis));
    Split(healed, healed[target], axis, first, second, firstSize)
  }

  ghost predicate DockAllowed(items: Items, visible: seq<string>, minimums: Minimums, moving: string,
                              target: string, edge: Edge)
    requires Present(items, visible) && HasMinimums(minimums, visible)
  {
    && moving != target && moving in visible && target in visible
    && RoomForBoth(Vacated(items, visible, moving)[target], EdgeAxis(edge), minimums[moving], minimums[target])
  }

  ghost predicate AtLeast(r: Rect, m: MinSize) {
    r.w >= m.w && r.h >= m.h
  }

  /** The two pieces of a cut that leaves room: where they stand and how big they are. */
  lemma CutPieces(rect: Rect, axis: Axis, firstSize: int, firstMin: MinSize, secondMin: MinSize)
    requires rect.Positive() && 0 < firstSize < rect.Size(axis)
    requires firstMin.Size(axis) <= firstSize <= rect.Size(axis) - secondMin.Size(axis)
    requires rect.Size(axis.Cross()) >= Max(firstMin.Size(axis.Cross()), secondMin.Size(axis.Cross()))
    ensures var first := rect.With(axis, rect.Pos(axis), firstSize);
            var second := rect.With(axis, rect.Pos(axis) + firstSize, rect.Size(axis) - firstSize);
            && CutInTwo(rect, first, second) && CutInTwo(rect, second, first)
            && AtLeast(first, firstMin) && AtLeast(second, secondMin)
            && first.Pos(axis) == rect.Pos(axis) && second.End(axis) == rect.End(axis)
  {
    forall c ensures var first := rect.With(axis, rect.Pos(axis), firstSize);
                     var second := rect.With(axis, rect.Pos(axis) + firstSize, rect.Size(axis) - firstSize);
                     (rect.Has(c) <==> first.Has(c) || second.Has(c)) && !(first.Has(c) && second.Has(c))
    {
      CutPartitions(rect, axis, firstSize, c);
    }
  }

  lemma DockedPieces(items: Items, visible: seq<string>, minimums: Minimums, moving: string, target: string,
                     edge: Edge)
    requires Standing(items, visible, minimums)
    requires DockAllowed(items, visible, minimums, moving, target, edge)
    ensures var docked := Docked(items, visible, minimums, moving, target, edge);
            var rect := Vacated(items, visible, moving)[target];
            && docked.Keys == items.Keys
            && CutInTwo(rect, docked[moving], docked[target])
            && AtLeast(docked[moving], minimums[moving]) && AtLeast(docked[target], minimums[target])
            && (forall id :: id in items && id != moving && id != target ==>
                  docked[id] == Vacated(items, visible, moving)[id])
            && (edge.Left? ==> docked[moving].x == rect.x)
            && (edge.Right? ==> docked[moving].x + docked[moving].w == rect.x + rect.w)
            && (edge.Top? ==> docked[moving].y == rect.y)
            && (edge.Bottom? ==> docked[moving].y + docked[moving].h == rect.y + rect.h)
  {
    hide Vacated, FirstSize, Disjoint, Positive, CutInTwo, Select, FormerBoundary, Covered;
    VacatedFacts(items, visible, minimums, moving);
    var rect := Vacated(items, visible, moving)[target];
    var axis := EdgeAxis(edge);
    var first := if edge.Left? || edge.Top? then moving else target;
    var second := if first == moving then target else moving;
    var firstSize := FirstSize(rect.Size(axis), minimums[first].Size(axis), minimums[second].Size(axis));
    CutIsFairest(rect.Size(axis), minimums[first].Size(axis), minimums[second].Size(axis), minimums[first].Size(axis));
    assert target in Without(visible, moving);
    CutPieces(rect, axis, firstSize, minimums[first], minimums[second]);
  }

  lemma DockedArrangement(items: Items, visible: seq<string>, minimums: Minimums, moving: string, target: string,
                          edge: Edge)
    requires Standing(items, visible, minimums)
    requires DockAllowed(items, visible, minimums, moving, target, edge)
    ensures Arrangement(Docked(items, visible, minimums, moving, target, edge), visible)
    ensures forall c :: Covered(Docked(items, visible, minimums, moving, target, edge), visible, c) <==>
              if FormerBoundary(items, visible, moving).Some? then Covered(items, visible, c)
              else Covered(items, visible, c) && !items[moving].Has(c)
  {
    hide Vacated, Docked, Disjoint, Covered, CutInTwo, Select, FormerBoundary;
    VacatedFacts(items, visible, minimums, moving);
    DockedPieces(items, visible, minimums, moving, target, edge);
    SplitKeepsArrangement(Vacated(items, visible, moving), Docked(items, visible, minimums, moving, target, edge),
                          visible, moving, target);
  }

  /**
   The final collision test of a dock never fails: it returns nothing only when the panes are the
   same, one of them is not visible, or the healed target is too small for both minimums.
   */
  lemma DockRefusesOnlyByGuard(layout: Layout, moving: string, target: string, edge: Edge, minimums: Minimums,
                               visible: seq<string>)
    requires Standing(layout.items, visible, minimums)
    ensures Dock(layout, moving, target, edge, minimums, visible)
            == if DockAllowed(layout.items, visible, minimums, moving, target, edge)
               then Some(layout.(items := Docked(layout.items, visible, minimums, moving, target, edge)))
               else None
  {
    hide Vacated, Disjoint, CollisionFree, FirstSize, Split, RoomForBoth;
    if DockAllowed(layout.items, visible, minimums, moving, target, edge) {
      DockedArrangement(layout.items, visible, minimums, moving, target, edge);
      CollisionFreeIsDisjoint(Docked(layout.items, visible, minimums, moving, target, edge), visible);
    }
  }

  /**
   A dock that succeeds cuts the healed target rectangle in two, one piece for each pane, both at
   least their minimum, with the moving pane at the named edge.
   */
  lemma DockPartitionsTarget(layout: Layout, moving: string, target: string, edge: Edge, minimums: Minimums,
                             visible: seq<string>)
    requires Standing(layout.items, visible, minimums)
    requires Dock(layout, moving, target, edge, minimums, visible).Some?
    ensures moving in visible && target in visible && moving != target
    ensures var after := Dock(layout, moving, target, edge, minimums, visible).value.items;
            var rect := Vacated(layout.items, visible, moving)[target];
            && after.Keys == layout.items.Keys
            && CutInTwo(rect, after[moving], after[target])
            && AtLeast(after[moving], minimums[moving]) && AtLeast(after[target], minimums[target])
            && (edge.Left? ==> after[moving].x == rect.x)
            && (edge.Right? ==> after[moving].x + after[moving].w == rect.x + rect.w)
            && (edge.Top? ==> after[moving].y == rect.y)
            && (edge.Bottom? ==> after[moving].y + after[moving].h == rect.y + rect.h)
  {
    hide Vacated, Docked, Disjoint, Dock, CutInTwo, RoomForBoth;
    DockRefusesOnlyByGuard(layout, moving, target, edge, minimums, visible);
    DockedPieces(layout.items, visible, minimums, moving, target, edge);
  }

  /**
   A dock keeps an arrangement. With a boundary the moving pane had to itself the covered cells do
   not change; without one they lose exactly the moving pane's old cells. Hidden panes do not move.
   */
  lemma DockConserves(layout: Layout, moving: string, target: string, edge: Edge, minimums: Minimums,
                      visible: seq<string>)
    requires Standing(layout.items, visible, minimums)
    requires Dock(layout, moving, target, edge, minimums, visible).Some?
    ensures var after := Dock(layout, moving, target, edge, minimums, visible).value;
            && after.extra == layout.extra && after.items.Keys == layout.items.Keys
            && Standing(after.items, visible, minimums)
            && moving in visible
            && (forall c :: Covered(after.items, visible, c) <==>
                  if FormerBoundary(layout.items, visible, moving).Some? then Covered(layout.items, visible, c)
                  else Covered(layout.items, visible, c) && !layout.items[moving].Has(c))
            && (forall id :: id in layout.items && id !in visible ==> after.items[id] == layout.items[id])
  {
    hide Vacated, Docked, Disjoint, Dock, CutInTwo, RoomForBoth, Covered, FormerBoundary;
    DockRefusesOnlyByGuard(layout, moving, target, edge, minimums, visible);
    DockedPieces(layout.items, visible, minimums, moving, target, edge);
    DockedArrangement(layout.items, visible, minimums, moving, target, edge);
    VacatedFacts(layout.items, visible, minimums, moving);
  }

  /** Apart from the two panes docked together, only the healed neighbours change, by growing into the gap. */
  lemma DockMovesOnlyNeighbours(layout: Layout, moving: string, target: string, edge: Edge, minimums: Minimums,
                                visible: seq<string>, id: string)
    requires Standing(layout.items, visible, minimums)
    requires Dock(layout, moving, target, edge, minimums, visible).Some?
    requires id in layout.items && id != moving && id != target
    ensures moving in visible
    ensures var former := FormerBoundary(layout.items, visible, moving);
            var after := Dock(layout, moving, target, edge, minimums, visible).value.items;
            && id in after
            && (former.None? || !OnBoundary(former.value, id) ==> after[id] == layout.items[id])
            && (former.Some? && OnBoundary(former.value, id) ==>
                  var axis := former.value.axis;
                  && after[id].Pos(axis.Cross()) == layout.items[id].Pos(axis.Cross())
                  && after[id].End(axis.Cross()) == layout.items[id].End(axis.Cross())
                  && after[id].Pos(axis) == Min(layout.items[id].Pos(axis), layout.items[moving].Pos(axis))
                  && after[id].End(axis) == Max(layout.items[id].End(axis), layout.items[moving].End(axis)))
  {
    hide Docked, Disjoint, Dock, CutInTwo, RoomForBoth, Derived, Heal, IsSharedBoundary, Seam;
    DockRefusesOnlyByGuard(layout, moving, target, edge, minimums, visible);
    DockedPieces(layout.items, visible, minimums, moving, target, edge);
    var former := FormerBoundary(layout.items, visible, moving);
    if former.Some? {
      DerivedHasSides(layout.items, visible, minimums, former.value);
      SharedIsSeam(layout.items, visible, former.value);
      HealedPane(layout.items, former.value, moving, id);
    } else {
      HealNothing(layout.items, moving);
    }
  }

  /** Minimums that held before a dock hold after it. */
  lemma DockKeepsMinimums(layout: Layout, moving: string, target: string, edge: Edge, minimums: Minimums,
                          visible: seq<string>)
    requires Standing(layout.items, visible, minimums)
    requires AboveMinimums(layout.items, visible, minimums)
    requires Dock(layout, moving, target, edge, minimums, visible).Some?
    ensures Present(Dock(layout, moving, target, edge, minimums, visible).value.items, visible)
    ensures AboveMinimums(Dock(layout, moving, target, edge, minimums, visible).value.items, visible, minimums)
  {
    hide Vacated, Docked, Disjoint, Dock, CutInTwo, RoomForBoth, Covered, FormerBoundary;
    DockRefusesOnlyByGuard(layout, moving, target, edge, minimums, visible);
    DockedPieces(layout.items, visible, minimums, moving, target, edge);
    VacatedFacts(layout.items, visible, minimums, moving);
  }
}

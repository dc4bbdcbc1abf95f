/**
 Docking said on the panes alone: which line the vacated place is healed along, where every pane ends
 up, and when there is no room.
 */
module DockOrder {
  import opened Wrappers
  import opened Sequences
  import opened LoggerGrid
  import opened SharedBoundaries
  import opened BoundaryFacts
  import opened Splitters
  import opened SeamFacts
  import opened ResizeFacts
  import opened DerivedOrder
  import opened DockFacts

  // ----- Which line is healed -----

  /** The moving pane has one side of this shared boundary to itself. */
  ghost predicate StandsAlone(items: Items, visible: seq<string>, b: Boundary, moving: string)
    requires Present(items, visible)
  {
    IsSharedBoundary(items, visible, b) && (b.before == [moving] || b.after == [moving])
  }

  /**
   The vacated place is healed along this boundary: the moving pane stands alone on it; it lies along y
   only if there is none along x; and of two along one axis it is the one whose position is met first
   among the visible panes' ends.
   */
  ghost predicate HealsAlong(items: Items, visible: seq<string>, moving: string, b: Boundary)
    requires Present(items, visible)
  {
    && StandsAlone(items, visible, b, moving)
    && (b.axis.Y? ==> forall d :: StandsAlone(items, visible, d, moving) ==> d.axis.Y?)
    && (forall d :: StandsAlone(items, visible, d, moving) && d.axis == b.axis && d != b ==>
          ComesFirst(Ends(items, b.axis, visible), b.position, d.position))
  }

  lemma {:induction false} FoundFirst(boundaries: seq<Boundary>, moving: string) returns (k: nat)
    requires FindAlone(boundaries, moving).Some?
    ensures k < |boundaries| && boundaries[k] == FindAlone(boundaries, moving).value
    ensures forall l :: 0 <= l < k ==> !AloneOn(boundaries[l], moving)
  {
    if AloneOn(boundaries[0], moving) {
      k := 0;
    } else {
      k := FoundFirst(boundaries[1..], moving);
      k := k + 1;
    }
  }

  /** On one line a pane has at most one boundary. */
  lemma AloneOncePerLine(items: Items, visible: seq<string>, moving: string, b: Boundary, d: Boundary)
    requires Distinct(visible) && Present(items, visible) && Positive(items, visible)
    requires StandsAlone(items, visible, b, moving) && StandsAlone(items, visible, d, moving)
    requires b.axis == d.axis && b.position == d.position
    ensures b == d
  {
    hide IsSharedBoundary, Derived, Tiles;
    SharedIsSeam(items, visible, b);
    SharedIsSeam(items, visible, d);
    assert OnBoundary(b, moving) && OnBoundary(d, moving);
    DerivedExactly(items, visible, b);
    DerivedExactly(items, visible, d);
    OneBoundaryPerEdge(items, visible, b, d, moving);
  }

  lemma FormerHeals(items: Items, visible: seq<string>, moving: string)
    requires Distinct(visible) && Present(items, visible) && Positive(items, visible)
    requires FormerBoundary(items, visible, moving).Some?
    ensures HealsAlong(items, visible, moving, FormerBoundary(items, visible, moving).value)
  {
    hide IsSharedBoundary, Derived, ComesFirst, Ends;
    var r := Derived(items, visible);
    var k := FoundFirst(r, moving);
    var b := r[k];
    DerivedExactly(items, visible, b);
    forall d | StandsAlone(items, visible, d, moving) && d != b
      ensures b.axis.Y? ==> d.axis.Y?
      ensures d.axis == b.axis ==> ComesFirst(Ends(items, b.axis, visible), b.position, d.position)
    {
      DerivedExactly(items, visible, d);
      var l :| 0 <= l < |r| && r[l] == d;
      DerivedInOrder(items, visible, k, l);
      if d.axis == b.axis && d.position == b.position {
        AloneOncePerLine(items, visible, moving, b, d);
      }
    }
  }

  /** Which boundary is healed, if any, without the order of a derivation. */
  lemma FormerExactly(items: Items, visible: seq<string>, moving: string, b: Boundary)
    requires Distinct(visible) && Present(items, visible) && Positive(items, visible)
    ensures FormerBoundary(items, visible, moving) == Some(b) <==> HealsAlong(items, visible, moving, b)
    ensures FormerBoundary(items, visible, moving).None? ==> !StandsAlone(items, visible, b, moving)
  {
    hide IsSharedBoundary, Derived, ComesFirst, Ends;
    DerivedExactly(items, visible, b);
    var former := FormerBoundary(items, visible, moving);
    if former.Some? {
      FormerHeals(items, visible, moving);
      if HealsAlong(items, visible, moving, b) && b != former.value {
        NotBothFirst(Ends(items, b.axis, visible), b.position, former.value.position);
      }
    }
  }

  // ----- Where every pane ends up -----

  /** The rectangle reaching along the axis over both. */
  ghost predicate Reaches(rect: Rect, own: Rect, gone: Rect, axis: Axis) {
    && rect.Pos(axis) == Min(own.Pos(axis), gone.Pos(axis))
    && rect.End(axis) == Max(own.End(axis), gone.End(axis))
    && rect.Pos(axis.Cross()) == own.Pos(axis.Cross()) && rect.End(axis.Cross()) == own.End(axis.Cross())
  }

  /** A neighbour across the line that is healed reaches over the vacated place; no other pane changes. */
  ghost predicate IsHealed(items: Items, visible: seq<string>, moving: string, id: string, rect: Rect)
    requires Present(items, visible) && moving in items && id in items
  {
    && (forall b :: HealsAlong(items, visible, moving, b) && OnBoundary(b, id) ==>
          Reaches(rect, items[id], items[moving], b.axis))
    && ((forall b :: HealsAlong(items, visible, moving, b) ==> !OnBoundary(b, id)) ==> rect == items[id])
  }

  lemma VacatedIsHealed(items: Items, visible: seq<string>, minimums: Minimums, moving: string, id: string)
    requires Standing(items, visible, minimums) && moving in visible && id in items && id != moving
    ensures IsHealed(items, visible, moving, id, Vacated(items, visible, moving)[id])
  {
    hide IsSharedBoundary, Derived, HealsAlong, Seam, Heal, FormerBoundary;
    var former := FormerBoundary(items, visible, moving);
    forall b: Boundary ensures former == Some(b) <==> HealsAlong(items, visible, moving, b) {
      FormerExactly(items, visible, moving, b);
    }
    if former.Some? {
      FormerIsSeam(items, visible, minimums, moving);
      HealedPane(items, former.value, moving, id);
    } else {
      HealNothing(items, moving);
    }
  }

  lemma FormerIsSeam(items: Items, visible: seq<string>, minimums: Minimums, moving: string)
    requires Standing(items, visible, minimums) && FormerBoundary(items, visible, moving).Some?
    ensures Seam(items, FormerBoundary(items, visible, moving).value)
    ensures AloneOn(FormerBoundary(items, visible, moving).value, moving)
  {
    hide Derived, IsSharedBoundary, Seam;
    var b := FormerBoundary(items, visible, moving).value;
    DerivedHasSides(items, visible, minimums, b);
    SharedIsSeam(items, visible, b);
  }

  /** The two rectangles stand side by side and make up the whole, the first on the left. */
  ghost predicate SideBySide(whole: Rect, left: Rect, right: Rect) {
    && left.x == whole.x && left.x + left.w == right.x && right.x + right.w == whole.x + whole.w
    && left.y == right.y == whole.y && left.h == right.h == whole.h
  }

  /** One above the other, the first on top. */
  ghost predicate Stacked(whole: Rect, top: Rect, bottom: Rect) {
    && top.y == whole.y && top.y + top.h == bottom.y && bottom.y + bottom.h == whole.y + whole.h
    && top.x == bottom.x == whole.x && top.w == bottom.w == whole.w
  }

  /** The moving pane takes its edge of the whole, the target the rest. */
  ghost predicate Parted(whole: Rect, edge: Edge, moving: Rect, target: Rect) {
    match edge
    case Left => SideBySide(whole, moving, target)
    case Right => SideBySide(whole, target, moving)
    case Top => Stacked(whole, moving, target)
    case Bottom => Stacked(whole, target, moving)
  }

  /** How much of the whole the first of two parts takes along the axis of the edge. */
  function FirstPart(edge: Edge, moving: Rect, target: Rect): int {
    match edge
    case Left => moving.w
    case Right => target.w
    case Top => moving.h
    case Bottom => target.h
  }

  /** What there is to part. */
  function Length(edge: Edge, whole: Rect): int {
    match edge
    case Left => whole.w
    case Right => whole.w
    case Top => whole.h
    case Bottom => whole.h
  }

  /** Two rectangles that part the whole as asked, both at least their minimum. */
  ghost predicate GoodParting(whole: Rect, edge: Edge, moving: Rect, target: Rect,
                              movingMin: MinSize, targetMin: MinSize)
  {
    Parted(whole, edge, moving, target) && AtLeast(moving, movingMin) && AtLeast(target, targetMin)
  }

  /** The proposed cut, in plain coordinates. */
  lemma SplitParts(whole: Rect, edge: Edge, size: int)
    ensures var axis := EdgeAxis(edge);
            var first := whole.With(axis, whole.Pos(axis), size);
            var second := whole.With(axis, whole.Pos(axis) + size, whole.Size(axis) - size);
            var moving := if edge.Left? || edge.Top? then first else second;
            var target := if edge.Left? || edge.Top? then second else first;
            Parted(whole, edge, moving, target) && FirstPart(edge, moving, target) == size
  {
  }

  /** There is room exactly when some parting gives both panes their minimum. */
  lemma RoomExactly(whole: Rect, edge: Edge, movingMin: MinSize, targetMin: MinSize)
    ensures RoomForBoth(whole, EdgeAxis(edge), movingMin, targetMin) <==>
              exists moving, target :: GoodParting(whole, edge, moving, target, movingMin, targetMin)
  {
    var axis := EdgeAxis(edge);
    if RoomForBoth(whole, axis, movingMin, targetMin) {
      var size := if edge.Left? || edge.Top? then movingMin.Size(axis) else whole.Size(axis) - movingMin.Size(axis);
      SplitParts(whole, edge, size);
      var first := whole.With(axis, whole.Pos(axis), size);
      var second := whole.With(axis, whole.Pos(axis) + size, whole.Size(axis) - size);
      var moving := if edge.Left? || edge.Top? then first else second;
      var target := if edge.Left? || edge.Top? then second else first;
      assert GoodParting(whole, edge, moving, target, movingMin, targetMin);
    }
  }

  /** No good parting is nearer to the middle, and of two the first part is the larger. */
  ghost predicate FairestParting(whole: Rect, edge: Edge, moving: Rect, target: Rect,
                                 movingMin: MinSize, targetMin: MinSize)
  {
    && GoodParting(whole, edge, moving, target, movingMin, targetMin)
    && forall m, t :: GoodParting(whole, edge, m, t, movingMin, targetMin) ==>
         var off := Abs(2 * FirstPart(edge, moving, target) - Length(edge, whole));
         var otherOff := Abs(2 * FirstPart(edge, m, t) - Length(edge, whole));
         off < otherOff || (off == otherOff && FirstPart(edge, m, t) <= FirstPart(edge, moving, target))
  }

  function FirstMin(edge: Edge, movingMin: MinSize, targetMin: MinSize): int {
    (if edge.Left? || edge.Top? then movingMin else targetMin).Size(EdgeAxis(edge))
  }

  function SecondMin(edge: Edge, movingMin: MinSize, targetMin: MinSize): int {
    (if edge.Left? || edge.Top? then targetMin else movingMin).Size(EdgeAxis(edge))
  }

  lemma PartingFits(whole: Rect, edge: Edge, m: Rect, t: Rect, movingMin: MinSize, targetMin: MinSize)
    requires GoodParting(whole, edge, m, t, movingMin, targetMin)
    ensures FirstMin(edge, movingMin, targetMin) <= FirstPart(edge, m, t)
    ensures FirstPart(edge, m, t) <= Length(edge, whole) - SecondMin(edge, movingMin, targetMin)
  {
  }

  lemma SplitFits(whole: Rect, edge: Edge, m: Rect, t: Rect, movingMin: MinSize, targetMin: MinSize)
    requires RoomForBoth(whole, EdgeAxis(edge), movingMin, targetMin) && Parted(whole, edge, m, t)
    requires FirstMin(edge, movingMin, targetMin) <= FirstPart(edge, m, t)
    requires FirstPart(edge, m, t) <= Length(edge, whole) - SecondMin(edge, movingMin, targetMin)
    ensures GoodParting(whole, edge, m, t, movingMin, targetMin)
  {
  }

  lemma LengthAlong(whole: Rect, edge: Edge)
    ensures Length(edge, whole) == whole.Size(EdgeAxis(edge))
  {
  }

  lemma RoomAlong(whole: Rect, edge: Edge, movingMin: MinSize, targetMin: MinSize)
    requires RoomForBoth(whole, EdgeAxis(edge), movingMin, targetMin)
    ensures FirstMin(edge, movingMin, targetMin) + SecondMin(edge, movingMin, targetMin) <= whole.Size(EdgeAxis(edge))
  {
  }

  lemma SplitIsFairest(whole: Rect, edge: Edge, movingMin: MinSize, targetMin: MinSize)
    requires RoomForBoth(whole, EdgeAxis(edge), movingMin, targetMin)
    ensures var axis := EdgeAxis(edge);
            var size := FirstSize(whole.Size(axis), FirstMin(edge, movingMin, targetMin),
                                  SecondMin(edge, movingMin, targetMin));
            var first := whole.With(axis, whole.Pos(axis), size);
            var second := whole.With(axis, whole.Pos(axis) + size, whole.Size(axis) - size);
            if edge.Left? || edge.Top? then FairestParting(whole, edge, first, second, movingMin, targetMin)
            else FairestParting(whole, edge, second, first, movingMin, targetMin)
  {
    hide FirstSize, RoomForBoth, GoodParting, Parted, FirstPart, Length, FirstMin, SecondMin, EdgeAxis, Abs,
      Rect.With, Rect.Pos, Rect.Size;
    var axis := EdgeAxis(edge);
    var low, high := FirstMin(edge, movingMin, targetMin), SecondMin(edge, movingMin, targetMin);
    var size := FirstSize(whole.Size(axis), low, high);
    RoomAlong(whole, edge, movingMin, targetMin);
    LengthAlong(whole, edge);
    SplitParts(whole, edge, size);
    CutIsFairest(whole.Size(axis), low, high, low);
    var first := whole.With(axis, whole.Pos(axis), size);
    var second := whole.With(axis, whole.Pos(axis) + size, whole.Size(axis) - size);
    var m, t := if edge.Left? || edge.Top? then first else second, if edge.Left? || edge.Top? then second else first;
    SplitFits(whole, edge, m, t, movingMin, targetMin);
    forall m', t' | GoodParting(whole, edge, m', t', movingMin, targetMin)
      ensures var other := FirstPart(edge, m', t');
              && Abs(2 * size - Length(edge, whole)) <= Abs(2 * other - Length(edge, whole))
              && (Abs(2 * size - Length(edge, whole)) == Abs(2 * other - Length(edge, whole)) ==> other <= size)
    {
      PartingFits(whole, edge, m', t', movingMin, targetMin);
      CutIsFairest(whole.Size(axis), low, high, FirstPart(edge, m', t'));
    }
  }

  /** A healed rectangle is determined by the layout. */
  lemma HealedOnce(items: Items, visible: seq<string>, moving: string, id: string, r: Rect, q: Rect)
    requires Present(items, visible) && moving in items && id in items
    requires IsHealed(items, visible, moving, id, r) && IsHealed(items, visible, moving, id, q)
    ensures r == q
  {
    hide HealsAlong;
    if b :| HealsAlong(items, visible, moving, b) && OnBoundary(b, id) {
      assert Reaches(r, items[id], items[moving], b.axis) && Reaches(q, items[id], items[moving], b.axis);
    }
  }

  /**
   Docking, exactly. It is refused for equal or invisible panes, and when the target, healed, cannot be
   parted so that both panes have their minimum. Otherwise the healed target is parted as fairly as the
   minimums allow, the moving pane at the named edge; a neighbour across the healed line reaches over
   the vacated place; and nothing else changes.
   */
  lemma DockExactly(layout: Layout, moving: string, target: string, edge: Edge, minimums: Minimums,
                    visible: seq<string>)
    requires Standing(layout.items, visible, minimums)
    ensures moving == target || moving !in visible || target !in visible ==>
              Dock(layout, moving, target, edge, minimums, visible).None?
    ensures moving != target && moving in visible && target in visible ==>
              exists whole :: && IsHealed(layout.items, visible, moving, target, whole)
                              && DockOutcome(layout, moving, target, edge, minimums, visible, whole,
                                             Dock(layout, moving, target, edge, minimums, visible))
  {
    hide Vacated, Disjoint, Dock, IsHealed, FirstSize, Split, FairestParting, GoodParting, RoomForBoth;
    DockRefusesOnlyByGuard(layout, moving, target, edge, minimums, visible);
    if moving != target && moving in visible && target in visible {
      var whole := Vacated(layout.items, visible, moving)[target];
      VacatedIsHealed(layout.items, visible, minimums, moving, target);
      RoomExactly(whole, edge, minimums[moving], minimums[target]);
      if DockAllowed(layout.items, visible, minimums, moving, target, edge) {
        DockedOutcome(layout.items, visible, minimums, moving, target, edge);
      }
      assert DockOutcome(layout, moving, target, edge, minimums, visible, whole,
                         Dock(layout, moving, target, edge, minimums, visible));
    }
  }

  /** What docking onto this rectangle comes to. */
  ghost predicate DockOutcome(layout: Layout, moving: string, target: string, edge: Edge, minimums: Minimums,
                              visible: seq<string>, whole: Rect, r: Option<Layout>)
    requires Present(layout.items, visible) && HasMinimums(minimums, visible)
    requires moving in visible && target in visible
  {
    && (r.None? <==> forall m, t :: !GoodParting(whole, edge, m, t, minimums[moving], minimums[target]))
    && (r.Some? ==>
          var after := r.value;
          && after.extra == layout.extra && after.items.Keys == layout.items.Keys
          && FairestParting(whole, edge, after.items[moving], after.items[target], minimums[moving], minimums[target])
          && forall id :: id in layout.items && id != moving && id != target ==>
               IsHealed(layout.items, visible, moving, id, after.items[id]))
  }

  lemma DockedOutcome(items: Items, visible: seq<string>, minimums: Minimums, moving: string, target: string,
                      edge: Edge)
    requires Standing(items, visible, minimums)
    requires DockAllowed(items, visible, minimums, moving, target, edge)
    ensures var docked := Docked(items, visible, minimums, moving, target, edge);
            && docked.Keys == items.Keys
            && FairestParting(Vacated(items, visible, moving)[target], edge, docked[moving], docked[target],
                              minimums[moving], minimums[target])
            && forall id :: id in items && id != moving && id != target ==>
                 IsHealed(items, visible, moving, id, docked[id])
  {
    hide Vacated, FirstSize, Disjoint, IsHealed, FairestParting, Rect.With, Rect.Size, Rect.Pos, RoomForBoth;
    SplitIsFairest(Vacated(items, visible, moving)[target], edge, minimums[moving], minimums[target]);
    forall id | id in items && id != moving && id != target
      ensures IsHealed(items, visible, moving, id, Vacated(items, visible, moving)[id])
    {
      VacatedIsHealed(items, visible, minimums, moving, id);
    }
  }
}

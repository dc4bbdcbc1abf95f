/** Where a drag lands, said about the panes alone: the nearest position that leaves every pane its minimum. */
module DragFacts {
  import opened Wrappers
  import opened Sequences
  import opened LoggerGrid
  import opened SharedBoundaries
  import opened BoundaryFacts
  import opened Splitters
  import opened SeamFacts
  import opened ResizeFacts
  import opened DerivedOrder

  // ----- Which boundary a name means -----

  /** The boundary has the name, and every other one that has it is reported later. */
  ghost predicate FirstNamed(items: Items, visible: seq<string>, boundaryId: string, b: Boundary)
    requires Present(items, visible)
  {
    && IsSharedBoundary(items, visible, b) && b.id == boundaryId && b.before != []
    && forall d :: IsSharedBoundary(items, visible, d) && d.id == boundaryId && d != b ==>
         d.before != [] && Precedes(items, visible, b, d)
  }

  lemma {:induction false} FoundAt(boundaries: seq<Boundary>, id: string) returns (k: nat)
    requires FindById(boundaries, id).Some?
    ensures k < |boundaries| && boundaries[k] == FindById(boundaries, id).value
    ensures forall l :: 0 <= l < k ==> boundaries[l].id != id
  {
    if boundaries[0].id == id {
      k := 0;
    } else {
      k := FoundAt(boundaries[1..], id);
      k := k + 1;
    }
  }

  /** A drag's name means the first shared boundary that has it. */
  lemma NameMeansFirst(items: Items, visible: seq<string>, boundaryId: string)
    requires Distinct(visible) && Present(items, visible) && Positive(items, visible)
    ensures var found := FindById(Derived(items, visible), boundaryId);
            if found.Some? then FirstNamed(items, visible, boundaryId, found.value)
            else forall b :: IsSharedBoundary(items, visible, b) ==> b.id != boundaryId
  {
    hide IsSharedBoundary, Derived, Precedes;
    var r := Derived(items, visible);
    forall b: Boundary ensures b in r <==> IsSharedBoundary(items, visible, b) {
      DerivedExactly(items, visible, b);
    }
    if FindById(r, boundaryId).Some? {
      var k := FoundAt(r, boundaryId);
      BoundaryComponent(items, visible, r[k]);
      forall d | IsSharedBoundary(items, visible, d) && d.id == boundaryId && d != r[k]
        ensures d.before != [] && Precedes(items, visible, r[k], d)
      {
        var l :| 0 <= l < |r| && r[l] == d;
        DerivedInOrder(items, visible, k, l);
      }
    }
  }

  /** No two boundaries are reported each before the other, so a name means at most one. */
  lemma FirstNamedOnce(items: Items, visible: seq<string>, boundaryId: string, b: Boundary, d: Boundary)
    requires Present(items, visible)
    requires FirstNamed(items, visible, boundaryId, b) && FirstNamed(items, visible, boundaryId, d)
    ensures b == d
  {
    hide IsSharedBoundary;
    if b != d {
      PrecedesOneWay(items, visible, b, d);
    }
  }

  lemma PrecedesOneWay(items: Items, visible: seq<string>, b: Boundary, d: Boundary)
    requires Present(items, visible) && b.before != [] && d.before != []
    ensures !(Precedes(items, visible, b, d) && Precedes(items, visible, d, b))
  {
    hide ComesFirst, Ends;
    var ends := Ends(items, b.axis, visible);
    NotBothFirst(ends, b.position, d.position);
    NotBothFirst(visible, b.before[0], d.before[0]);
    NotBeforeItself(ends, b.position);
  }

  lemma NotBeforeItself<T(!new)>(s: seq<T>, a: T)
    ensures !ComesFirst(s, a, a)
  {
  }

  // ----- Where the line may stand -----

  /** With the line at p, every pane on the boundary is at least its minimum along the axis. */
  ghost predicate LeavesMinimums(items: Items, b: Boundary, minimums: Minimums, p: int)
    requires HasSides(items, b, minimums)
  {
    && (forall id :: id in b.before ==> p - items[id].Pos(b.axis) >= minimums[id].Size(b.axis))
    && (forall id :: id in b.after ==> items[id].End(b.axis) - p >= minimums[id].Size(b.axis))
  }

  /** The limits are exact: inside them, and only there, every pane keeps its minimum. */
  lemma LimitsExactly(items: Items, b: Boundary, minimums: Minimums, p: int)
    requires HasSides(items, b, minimums)
    ensures var limits := BoundaryLimits(items, b, minimums);
            limits.min <= p <= limits.max <==> LeavesMinimums(items, b, minimums, p)
  {
    var ends, starts := LeastEnds(items, b.axis, b.before, minimums), GreatestStarts(items, b.axis, b.after, minimums);
    forall id | OnBoundary(b, id)
      ensures var limits := BoundaryLimits(items, b, minimums);
              && (id in b.before ==> items[id].Pos(b.axis) + minimums[id].Size(b.axis) <= limits.min)
              && (id in b.after ==> limits.max <= items[id].End(b.axis) - minimums[id].Size(b.axis))
    {
      LimitMembers(items, b, minimums, id);
    }
    var i :| 0 <= i < |ends| && ends[i] == MaxOf(ends);
    var j :| 0 <= j < |starts| && starts[j] == MinOf(starts);
    assert b.before[i] in b.before && b.after[j] in b.after;
  }

  function Distance(a: real, b: real): real {
    if a < b then b - a else a - b
  }

  /** The clamped request is the nearest integer within the limits, and of two the larger. */
  lemma ClampedIsNearest(limits: Limits, requested: real, q: int)
    requires limits.min <= q <= limits.max
    ensures var p := Clamped(limits, requested);
            && limits.min <= p <= limits.max
            && Distance(p as real, requested) <= Distance(q as real, requested)
            && (Distance(p as real, requested) == Distance(q as real, requested) ==> q <= p)
  {
    var r := Round(requested);
    if q < r {
      assert q as real <= r as real - 1.0;
    } else if q > r {
      assert q as real >= r as real + 1.0;
    }
  }

  /** A pane whose far side has been moved to p. */
  ghost predicate EndsAt(before: Rect, after: Rect, axis: Axis, p: int) {
    && after.Pos(axis) == before.Pos(axis) && after.End(axis) == p
    && after.Pos(axis.Cross()) == before.Pos(axis.Cross()) && after.End(axis.Cross()) == before.End(axis.Cross())
  }

  /** A pane whose near side has been moved to p. */
  ghost predicate StartsAt(before: Rect, after: Rect, axis: Axis, p: int) {
    && after.Pos(axis) == p && after.End(axis) == before.End(axis)
    && after.Pos(axis.Cross()) == before.Pos(axis.Cross()) && after.End(axis.Cross()) == before.End(axis.Cross())
  }

  /** The panes before the line end at p, those after it start there, and no other pane has changed. */
  ghost predicate LineMovedTo(items: Items, items': Items, b: Boundary, p: int)
    requires Present(items, b.before) && Present(items, b.after)
  {
    && items'.Keys == items.Keys
    && (forall id :: id in b.before ==> EndsAt(items[id], items'[id], b.axis, p))
    && (forall id :: id in b.after ==> StartsAt(items[id], items'[id], b.axis, p))
    && (forall id :: id in items && !OnBoundary(b, id) ==> items'[id] == items[id])
  }

  lemma ShiftMovesLine(items: Items, b: Boundary, p: int)
    requires Seam(items, b)
    ensures LineMovedTo(items, Shift(items, b, p), b, p)
  {
    hide Shift, Tiles;
    ShiftKeys(items, b, p);
    forall id | id in items
      ensures var r := Shift(items, b, p)[id];
              && (id in b.before ==> EndsAt(items[id], r, b.axis, p))
              && (id in b.after ==> StartsAt(items[id], r, b.axis, p))
              && (!OnBoundary(b, id) ==> r == items[id])
    {
      ShiftedPane(items, b, p, id);
    }
  }

  /**
   A drag moves the line of a shared boundary of that name to the position nearest to the request, the
   larger of two, among those that leave every pane its minimum; and nothing else changes.
   */
  lemma DragLandsNearest(layout: Layout, boundaryId: string, requested: real, minimums: Minimums,
                         visible: seq<string>) returns (b: Boundary, p: int)
    requires Standing(layout.items, visible, minimums)
    requires Resize(layout, boundaryId, Finite(requested), minimums, visible).Some?
    ensures FirstNamed(layout.items, visible, boundaryId, b)
    ensures HasSides(layout.items, b, minimums) && LeavesMinimums(layout.items, b, minimums, p)
    ensures forall q :: LeavesMinimums(layout.items, b, minimums, q) ==>
              && Distance(p as real, requested) <= Distance(q as real, requested)
              && (Distance(p as real, requested) == Distance(q as real, requested) ==> q <= p)
    ensures var after := Resize(layout, boundaryId, Finite(requested), minimums, visible).value;
            after.extra == layout.extra && LineMovedTo(layout.items, after.items, b, p)
  {
    hide Derived, BoundaryLimits, Shift, CollisionFree, IsSharedBoundary, LeavesMinimums, Clamped, Distance, FirstNamed;
    NameMeansFirst(layout.items, visible, boundaryId);
    b, p := ResizeMovesOneLine(layout, boundaryId, Finite(requested), minimums, visible);
    DerivedExactly(layout.items, visible, b);
    SharedIsSeam(layout.items, visible, b);
    ShiftMovesLine(layout.items, b, p);
    LimitsExactly(layout.items, b, minimums, p);
    forall q | LeavesMinimums(layout.items, b, minimums, q)
      ensures && Distance(p as real, requested) <= Distance(q as real, requested)
              && (Distance(p as real, requested) == Distance(q as real, requested) ==> q <= p)
    {
      LimitsExactly(layout.items, b, minimums, q);
      ClampedIsNearest(BoundaryLimits(layout.items, b, minimums), requested, q);
    }
  }

  /**
   A drag is refused exactly when it asks for no number, no shared boundary has the name, or the first
   that has it can stand nowhere without squeezing a pane below its minimum.
   */
  lemma DragRefusedExactly(layout: Layout, boundaryId: string, requested: Number, minimums: Minimums,
                           visible: seq<string>)
    requires Standing(layout.items, visible, minimums)
    ensures forall b :: FirstNamed(layout.items, visible, boundaryId, b) ==> HasSides(layout.items, b, minimums)
    ensures Resize(layout, boundaryId, requested, minimums, visible).None? <==>
              || requested.NotFinite?
              || (forall b :: IsSharedBoundary(layout.items, visible, b) ==> b.id != boundaryId)
              || exists b :: && FirstNamed(layout.items, visible, boundaryId, b)
                             && forall p :: !LeavesMinimums(layout.items, b, minimums, p)
  {
    hide Derived, BoundaryLimits, IsSharedBoundary, LeavesMinimums, Resize, Precedes;
    NameMeansFirst(layout.items, visible, boundaryId);
    forall b, d | FirstNamed(layout.items, visible, boundaryId, b) && FirstNamed(layout.items, visible, boundaryId, d)
      ensures b == d
    {
      FirstNamedOnce(layout.items, visible, boundaryId, b, d);
    }
    forall b | FirstNamed(layout.items, visible, boundaryId, b) ensures HasSides(layout.items, b, minimums) {
      DerivedExactly(layout.items, visible, b);
      DerivedHasSides(layout.items, visible, minimums, b);
    }
    var found := FindById(Derived(layout.items, visible), boundaryId);
    ResizeRefusesOnlyByGuard(layout, boundaryId, requested, minimums, visible);
    if found.Some? {
      DerivedHasSides(layout.items, visible, minimums, found.value);
      var limits := BoundaryLimits(layout.items, found.value, minimums);
      LimitsExactly(layout.items, found.value, minimums, limits.min);
      forall p ensures LeavesMinimums(layout.items, found.value, minimums, p) ==> limits.min <= p <= limits.max {
        LimitsExactly(layout.items, found.value, minimums, p);
      }
    }
  }
}

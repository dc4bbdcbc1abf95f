/**
 A resize looks its boundary up by name. Ids that contain the separators can give two boundaries one
 name, and then a second resize may move another line: exactly when it does, and that it can happen.
 */
module BoundaryNames {
  import opened Wrappers
  import opened Sequences
  import opened LoggerGrid
  import opened PaneGraph
  import opened PaneIds
  import opened SharedBoundaries
  import opened BoundaryFacts
  import opened Splitters
  import opened SeamFacts
  import opened ResizeFacts

  /** The request leaves the boundary's line where it stands. */
  ghost predicate Stays(items: Items, b: Boundary, minimums: Minimums, requested: real)
    requires HasSides(items, b, minimums)
  {
    var limits := BoundaryLimits(items, b, minimums);
    limits.min <= limits.max && Clamped(limits, requested) == b.position
  }

  /** The name begins with the axis. */
  lemma SameNameSameAxis(items: Items, visible: seq<string>, a: Boundary, b: Boundary)
    requires Present(items, visible) && IsSharedBoundary(items, visible, a) && IsSharedBoundary(items, visible, b)
    requires a.id == b.id
    ensures a.axis == b.axis
  {
    hide Join, SortIds, IsComponent, Tiles;
    assert a.id[0] == AxisName(a.axis)[0] && b.id[0] == AxisName(b.axis)[0];
  }

  /** If moving either of two boundaries with one name gives the same panes, neither line has moved. */
  lemma EqualMovesStandStill(items: Items, visible: seq<string>, a: Boundary, b: Boundary, p: int, q: int)
    requires Arrangement(items, visible) && a in Derived(items, visible) && b in Derived(items, visible)
    requires a != b && a.id == b.id
    requires Seam(items, a) && Seam(items, b) && Shift(items, a, p) == Shift(items, b, q)
    ensures p == a.position
  {
    hide Derived, IsSharedBoundary, Tiles, Shift;
    DerivedExactly(items, visible, a);
    DerivedExactly(items, visible, b);
    SameNameSameAxis(items, visible, a, b);
    BoundaryStretch(items, visible, a);
    var id := a.before[0];
    ShiftedPane(items, a, p, id);
    ShiftedPane(items, b, q, id);
    if id in b.before {
      OneBoundaryPerEdge(items, visible, a, b, id);
    }
  }

  /**
   Path independence, exactly: a second resize has the outcome of that resize alone if and only if the
   name still finds the boundary that was moved, or the request would move neither that boundary nor
   the one the name finds instead.
   */
  lemma PathIndependentExactly(layout: Layout, boundaryId: string, first: Number, second: real,
                               minimums: Minimums, visible: seq<string>) returns (moved: Boundary, found: Boundary)
    requires Standing(layout.items, visible, minimums)
    requires Resize(layout, boundaryId, first, minimums, visible).Some?
    ensures var once := Resize(layout, boundaryId, first, minimums, visible).value;
            var b := FindById(Derived(layout.items, visible), boundaryId);
            && Standing(once.items, visible, minimums)
            && b.Some? && moved == b.value.(position := moved.position)
            && once == layout.(items := Shift(layout.items, b.value, moved.position))
            && Some(found) == FindById(Derived(once.items, visible), boundaryId)
            && HasSides(once.items, moved, minimums) && HasSides(once.items, found, minimums)
            && (Resize(once, boundaryId, Finite(second), minimums, visible)
                == Resize(layout, boundaryId, Finite(second), minimums, visible)
                <==> found == moved
                     || (Stays(once.items, moved, minimums, second) && Stays(once.items, found, minimums, second)))
  {
    hide Shift, Derived, BoundaryLimits, Seam, CollisionFree, Clamped, IsSharedBoundary;
    var b, p := ResizeMovesOneLine(layout, boundaryId, first, minimums, visible);
    var once := Resize(layout, boundaryId, first, minimums, visible).value;
    LimitsLeaveRoom(layout.items, visible, minimums, b, p);
    ShiftKeepsArrangement(layout.items, visible, b, p);
    ShiftKeepsSeam(layout.items, b, p);
    BoundarySurvives(layout.items, visible, b, p);
    LimitsSurvive(layout.items, b, p, minimums);
    moved := b.(position := p);
    found := FindById(Derived(once.items, visible), boundaryId).value;
    LimitsLeaveRoom(once.items, visible, minimums, found, found.position);
    ResizeRefusesOnlyByGuard(layout, boundaryId, Finite(second), minimums, visible);
    ResizeRefusesOnlyByGuard(once, boundaryId, Finite(second), minimums, visible);
    var q := Clamped(BoundaryLimits(layout.items, b, minimums), second);
    var r := Clamped(BoundaryLimits(once.items, found, minimums), second);
    ShiftTwice(layout.items, b, p, q);
    ShiftInPlace(once.items, moved);
    ShiftInPlace(once.items, found);
    ResizesTo(layout, b, second, minimums, visible);
    ResizesTo(once, found, second, minimums, visible);
    if found != moved && Shift(once.items, moved, q) == Shift(once.items, found, r) {
      EqualMovesStandStill(once.items, visible, moved, found, q, r);
      EqualMovesStandStill(once.items, visible, found, moved, r, q);
    }
  }

  /** What a resize does to the boundary its name finds. */
  lemma ResizesTo(layout: Layout, b: Boundary, requested: real, minimums: Minimums, visible: seq<string>)
    requires Standing(layout.items, visible, minimums)
    requires Some(b) == FindById(Derived(layout.items, visible), b.id)
    ensures HasSides(layout.items, b, minimums)
    ensures var limits := BoundaryLimits(layout.items, b, minimums);
            Resize(layout, b.id, Finite(requested), minimums, visible)
            == if limits.min > limits.max then None
               else Some(layout.(items := Shift(layout.items, b, Clamped(limits, requested))))
  {
    hide Shift, Derived, BoundaryLimits, CollisionFree, IsSharedBoundary;
    DerivedHasSides(layout.items, visible, minimums, b);
    ResizeRefusesOnlyByGuard(layout, b.id, Finite(requested), minimums, visible);
  }

  /**
   Undoing a drag, exactly: resizing back to the old position, where the limits allow it, restores the
   layout if and only if the name still finds the moved boundary, or the drag moved nothing and neither
   does the way back.
   */
  lemma RestoresExactly(layout: Layout, boundaryId: string, requested: Number, minimums: Minimums,
                        visible: seq<string>) returns (moved: Boundary, found: Boundary)
    requires Standing(layout.items, visible, minimums)
    requires Resize(layout, boundaryId, requested, minimums, visible).Some?
    requires NamedLimits(layout.items, visible, minimums, boundaryId).Some?
    requires var limits := NamedLimits(layout.items, visible, minimums, boundaryId).value;
             limits.min <= FindById(Derived(layout.items, visible), boundaryId).value.position <= limits.max
    ensures var b := FindById(Derived(layout.items, visible), boundaryId).value;
            var once := Resize(layout, boundaryId, requested, minimums, visible).value;
            && Standing(once.items, visible, minimums)
            && moved == b.(position := moved.position)
            && once == layout.(items := Shift(layout.items, b, moved.position))
            && Some(found) == FindById(Derived(once.items, visible), boundaryId)
            && HasSides(once.items, moved, minimums) && HasSides(once.items, found, minimums)
            && (Resize(once, boundaryId, Finite(b.position as real), minimums, visible) == Some(layout) <==>
                  || found == moved
                  || (&& Stays(once.items, moved, minimums, b.position as real)
                      && Stays(once.items, found, minimums, b.position as real)))
  {
    hide Shift, Derived, BoundaryLimits, Seam, Stays, IsSharedBoundary, Resize;
    var b := FindById(Derived(layout.items, visible), boundaryId).value;
    moved, found := PathIndependentExactly(layout, boundaryId, requested, b.position as real, minimums, visible);
    ResizesTo(layout, b, b.position as real, minimums, visible);
    RoundInt(b.position);
    LimitsLeaveRoom(layout.items, visible, minimums, b, b.position);
    ShiftInPlace(layout.items, b);
  }

  // ----- A layout in which the name misleads -----

  lemma {:induction false} FindInConcat(xs: seq<Boundary>, ys: seq<Boundary>, id: string)
    ensures FindById(xs + ys, id) == if FindById(xs, id).Some? then FindById(xs, id) else FindById(ys, id)
  {
    if xs == [] {
      assert xs + ys == ys;
    } else {
      assert (xs + ys)[1..] == xs[1..] + ys;
      FindInConcat(xs[1..], ys, id);
    }
  }

  /** The derivation reports the first two positions' boundaries first. */
  lemma {:induction false} FirstTwoPositions(items: Items, visible: seq<string>, axis: Axis, positions: seq<int>)
    returns (rest: seq<Boundary>)
    requires Present(items, visible) && |positions| >= 2
    ensures BoundariesAtAll(items, visible, axis, positions)
         == BoundariesAt(items, visible, axis, positions[0]) + (BoundariesAt(items, visible, axis, positions[1]) + rest)
  {
    hide BoundariesAt;
    var init, last := positions[..|positions| - 1], positions[|positions| - 1];
    if |positions| == 2 {
      assert BoundariesAtAll(items, visible, axis, init[..0]) == [];
      assert BoundariesAtAll(items, visible, axis, init) == BoundariesAt(items, visible, axis, positions[0]);
      rest := [];
    } else {
      rest := FirstTwoPositions(items, visible, axis, init);
      rest := rest + BoundariesAt(items, visible, axis, last);
    }
  }

  /** Two panes side by side, of one height, that nobody else on their line faces, share a boundary. */
  lemma PairIsShared(items: Items, visible: seq<string>, left: string, right: string)
    requires Arrangement(items, visible) && left in visible && right in visible && left != right
    requires items[left].End(X) == items[right].x
    requires items[left].y == items[right].y && items[left].h == items[right].h
    requires forall o :: o in visible && o != left && o != right ==> !OverlapAlong(items[left], items[o], Y)
    ensures IsSharedBoundary(items, visible,
              Boundary(BoundaryId("x", [left], [right]), X, items[right].x,
                       items[left].y, items[left].End(Y), [left], [right]))
  {
    hide Linked, Tiles, BoundaryId, Closed;
    var position := items[right].x;
    var c := Elems([left]) + Elems([right]);
    var pool := Touching(items, visible, X, position);
    SoleSelected(visible, c * Ending(items, visible, X, position), left);
    SoleSelected(visible, c * Starting(items, visible, X, position), right);
    LinkedToSelf(items, X, c, left);
    LinkedStep(items, X, c, left, left, right);
    assert Closed(items, X, pool, c) by { PairIsClosed(items, visible, left, right, pool); }
    ClosedLinkedIsComponent(items, X, pool, c, left);
    OnePaneTiles(items, Y, left);
    OnePaneTiles(items, Y, right);
  }

  lemma PairIsClosed(items: Items, visible: seq<string>, left: string, right: string, pool: set<string>)
    requires Present(items, visible) && left in pool && right in pool && forall id :: id in pool ==> id in visible
    requires items[left].y == items[right].y && items[left].h == items[right].h
    requires forall o :: o in visible && o != left && o != right ==> !OverlapAlong(items[left], items[o], Y)
    ensures Closed(items, X, pool, Elems([left]) + Elems([right]))
  {
  }

  lemma SoleSelected(s: seq<string>, keep: set<string>, id: string)
    requires Distinct(s) && id in s && id in keep && forall x :: x in keep && x in s ==> x == id
    ensures Select(s, keep) == [id]
  {
    SelectDistinct(s, keep);
    AllTheSame(Select(s, keep), id);
  }

  lemma OnePaneTiles(items: Items, axis: Axis, id: string)
    requires id in items
    ensures Tiles(items, axis, Elems([id]), items[id].Pos(axis), items[id].End(axis))
  {
    var ids := Elems([id]);
    forall v | items[id].Pos(axis) <= v < items[id].End(axis) ensures Spanned(items, axis, ids, v) {
      assert id in ids;
    }
  }

  /** Where one pane alone starts on a line, the name of its boundary finds that boundary there. */
  lemma FoundThere(items: Items, visible: seq<string>, b: Boundary)
    requires Arrangement(items, visible) && IsSharedBoundary(items, visible, b) && b.axis == X
    requires |b.after| == 1 && forall o :: o in visible && items[o].x == b.position ==> o == b.after[0]
    ensures FindById(BoundariesAt(items, visible, X, b.position), b.id) == Some(b)
  {
    hide IsSharedBoundary, BoundariesAt, Derived;
    BoundariesAtExact(items, visible, X, b.position, b);
    var found := FindById(BoundariesAt(items, visible, X, b.position), b.id).value;
    BoundariesAtExact(items, visible, X, b.position, found);
    BoundaryComponent(items, visible, found);
    BoundaryComponent(items, visible, b);
    assert found.after[0] in Elems(found.after);
    DerivedExactly(items, visible, b);
    DerivedExactly(items, visible, found);
    OneBoundaryPerEdge(items, visible, b, found, b.after[0]);
  }

  lemma SomebodyStarts(items: Items, visible: seq<string>, b: Boundary)
    requires Present(items, visible) && IsSharedBoundary(items, visible, b)
    ensures exists o :: o in visible && items[o].Pos(b.axis) == b.position
  {
    BoundaryComponent(items, visible, b);
    assert b.after[0] in Elems(b.after);
  }

  /** No boundary is found on a line where no pane starts. */
  lemma NothingThere(items: Items, visible: seq<string>, position: int, id: string)
    requires Arrangement(items, visible) && forall o :: o in visible ==> items[o].x != position
    ensures FindById(BoundariesAt(items, visible, X, position), id).None?
  {
    hide IsSharedBoundary, BoundariesAt;
    var found := FindById(BoundariesAt(items, visible, X, position), id);
    if found.Some? {
      BoundariesAtExact(items, visible, X, position, found.value);
      SomebodyStarts(items, visible, found.value);
    }
  }

  const PANES := ["c", "a:b", "a", "b:c"]

  /** Two rows, each cut once: a | b:c above, a:b | c below. Both cuts are named x:a:b:c. */
  function Rows(upper: int, lower: int): Items {
    map["a" := Rect(0, 0, upper, 1), "b:c" := Rect(upper, 0, 20 - upper, 1),
        "a:b" := Rect(0, 1, lower, 1), "c" := Rect(lower, 1, 10 - lower, 1)]
  }

  const LEAST: Minimums :=
    map["a" := MinSize(1, 1), "b:c" := MinSize(1, 1), "a:b" := MinSize(1, 1), "c" := MinSize(1, 1)]

  function UpperCut(upper: int): Boundary {
    Boundary("x:a:b:c", X, upper, 0, 1, ["a"], ["b:c"])
  }

  function LowerCut(lower: int): Boundary {
    Boundary("x:a:b:c", X, lower, 1, 2, ["a:b"], ["c"])
  }

  lemma OneName()
    ensures BoundaryId("x", ["a"], ["b:c"]) == "x:a:b:c" == BoundaryId("x", ["a:b"], ["c"])
  {
  }

  lemma RowsStand(upper: int, lower: int)
    requires 0 < upper < 20 && 0 < lower < 10
    ensures Standing(Rows(upper, lower), PANES, LEAST)
  {
    assert PANES[0] == "c" && PANES[1] == "a:b" && PANES[2] == "a" && PANES[3] == "b:c";
  }

  lemma CutsAreShared(upper: int, lower: int)
    requires 0 < upper < 20 && 0 < lower < 10
    ensures Standing(Rows(upper, lower), PANES, LEAST)
    ensures IsSharedBoundary(Rows(upper, lower), PANES, UpperCut(upper))
    ensures IsSharedBoundary(Rows(upper, lower), PANES, LowerCut(lower))
  {
    hide IsSharedBoundary, BoundaryId, Standing;
    RowsStand(upper, lower);
    StandingArranged(Rows(upper, lower), PANES, LEAST);
    OneName();
    UpperIsShared(upper, lower);
    LowerIsShared(upper, lower);
  }

  lemma UpperIsShared(upper: int, lower: int)
    requires Arrangement(Rows(upper, lower), PANES)
    ensures IsSharedBoundary(Rows(upper, lower), PANES,
              Boundary(BoundaryId("x", ["a"], ["b:c"]), X, upper, 0, 1, ["a"], ["b:c"]))
  {
    hide IsSharedBoundary, BoundaryId, Positive, Disjoint;
    assert PANES[2] == "a" && PANES[3] == "b:c";
    PairIsShared(Rows(upper, lower), PANES, "a", "b:c");
  }

  lemma LowerIsShared(upper: int, lower: int)
    requires Arrangement(Rows(upper, lower), PANES)
    ensures IsSharedBoundary(Rows(upper, lower), PANES,
              Boundary(BoundaryId("x", ["a:b"], ["c"]), X, lower, 1, 2, ["a:b"], ["c"]))
  {
    hide IsSharedBoundary, BoundaryId, Positive, Disjoint;
    assert PANES[0] == "c" && PANES[1] == "a:b";
    PairIsShared(Rows(upper, lower), PANES, "a:b", "c");
  }

  /** Two different values at the front stay at the front. */
  lemma {:induction false} DedupStarts(s: seq<int>)
    requires |s| >= 2 && s[0] != s[1]
    ensures |Dedup(s)| >= 2 && Dedup(s)[..2] == [s[0], s[1]]
  {
    var init := s[..|s| - 1];
    if |s| == 2 {
      assert init == [s[0]] && init[..0] == [];
      assert Dedup(init[..0]) == [] && Dedup(init) == [s[0]];
    } else {
      DedupStarts(init);
    }
  }

  /** The first positions at which a pane of the two rows ends. */
  lemma FirstEnds(upper: int, lower: int)
    requires 0 < upper < 20 && 0 < lower < 10
    ensures Present(Rows(upper, lower), PANES)
    ensures |Dedup(Ends(Rows(upper, lower), X, PANES))| >= 2
    ensures Dedup(Ends(Rows(upper, lower), X, PANES))[..2] == [10, lower]
  {
    hide Dedup;
    assert PANES[0] == "c" && PANES[1] == "a:b" && PANES[2] == "a" && PANES[3] == "b:c";
    var ends := Ends(Rows(upper, lower), X, PANES);
    assert ends[0] == 10 && ends[1] == lower;
    DedupStarts(ends);
  }

  /** The name finds the upper cut where the lower row ends, and the lower cut anywhere else. */
  lemma WhichCutIsFound(upper: int, lower: int)
    requires 0 < upper < 20 && 0 < lower < 10 && upper != lower
    ensures Standing(Rows(upper, lower), PANES, LEAST)
    ensures FindById(Derived(Rows(upper, lower), PANES), "x:a:b:c")
         == Some(if upper == 10 then UpperCut(10) else LowerCut(lower))
  {
    hide IsSharedBoundary, BoundariesAt, FindById, BoundariesAtAll, Dedup, Ends, Positive, Disjoint;
    var items := Rows(upper, lower);
    CutsAreShared(upper, lower);
    FirstEnds(upper, lower);
    var positions := Dedup(Ends(items, X, PANES));
    assert positions[0] == positions[..2][0] && positions[1] == positions[..2][1];
    var rest := FirstTwoPositions(items, PANES, X, positions);
    var first, second := BoundariesAt(items, PANES, X, 10), BoundariesAt(items, PANES, X, lower);
    assert Derived(items, PANES) == first + (second + (rest + AxisBoundaries(items, PANES, Y)));
    FindInConcat(first, second + (rest + AxisBoundaries(items, PANES, Y)), "x:a:b:c");
    FindInConcat(second, rest + AxisBoundaries(items, PANES, Y), "x:a:b:c");
    if upper == 10 {
      FoundThere(items, PANES, UpperCut(10));
    } else {
      NothingThere(items, PANES, 10, "x:a:b:c");
      FoundThere(items, PANES, LowerCut(lower));
    }
  }

  /**
   The name can mislead: dragging the upper cut from 10 to 11 and asking for 11 once more moves the
   lower cut, because both are named alike and the derivation now reports the lower one first.
   */
  lemma NameMovesAnotherLine()
    ensures Standing(Rows(10, 5), PANES, LEAST) && Standing(Rows(11, 5), PANES, LEAST)
    ensures Resize(Layout(Rows(10, 5), map[]), "x:a:b:c", Finite(11.0), LEAST, PANES)
              == Some(Layout(Rows(11, 5), map[]))
    ensures Resize(Layout(Rows(11, 5), map[]), "x:a:b:c", Finite(11.0), LEAST, PANES)
              == Some(Layout(Rows(11, 9), map[]))
  {
    hide IsSharedBoundary, Derived, Resize, Standing, HasSides, BoundaryLimits, Clamped, Shift;
    WhichCutIsFound(10, 5);
    WhichCutIsFound(11, 5);
    ResizesTo(Layout(Rows(10, 5), map[]), UpperCut(10), 11.0, LEAST, PANES);
    ResizesTo(Layout(Rows(11, 5), map[]), LowerCut(5), 11.0, LEAST, PANES);
    UpperMoves();
    LowerMoves();
  }

  lemma UpperMoves()
    ensures HasSides(Rows(10, 5), UpperCut(10), LEAST)
    ensures BoundaryLimits(Rows(10, 5), UpperCut(10), LEAST) == Limits(1, 19)
    ensures Clamped(Limits(1, 19), 11.0) == 11
    ensures Shift(Rows(10, 5), UpperCut(10), 11) == Rows(11, 5)
  {
    hide Shift;
    CutMoves(10, 5, UpperCut(10), 11, Rows(11, 5));
  }

  lemma LowerMoves()
    ensures HasSides(Rows(11, 5), LowerCut(5), LEAST)
    ensures BoundaryLimits(Rows(11, 5), LowerCut(5), LEAST) == Limits(1, 9)
    ensures Clamped(Limits(1, 9), 11.0) == 9
    ensures Shift(Rows(11, 5), LowerCut(5), 9) == Rows(11, 9)
  {
    hide Shift;
    CutMoves(11, 5, LowerCut(5), 9, Rows(11, 9));
  }

  lemma CutMoves(upper: int, lower: int, b: Boundary, p: int, after: Items)
    requires 0 < upper < 20 && 0 < lower < 10
    requires (b == UpperCut(upper) && after == Rows(p, lower)) || (b == LowerCut(lower) && after == Rows(upper, p))
    ensures Shift(Rows(upper, lower), b, p) == after
  {
    hide Shift, Standing, IsSharedBoundary, Seam, Positive, Disjoint;
    var items := Rows(upper, lower);
    CutsAreShared(upper, lower);
    StandingArranged(items, PANES, LEAST);
    SharedIsSeam(items, PANES, b);
    ShiftKeys(items, b, p);
    forall id | id in items ensures Shift(items, b, p)[id] == after[id] {
      ShiftedPane(items, b, p, id);
      CutPane(upper, lower, b, p, after, id);
    }
  }

  /** Each pane of the two rows, after one of the cuts has moved. */
  lemma CutPane(upper: int, lower: int, b: Boundary, p: int, after: Items, id: string)
    requires (b == UpperCut(upper) && after == Rows(p, lower)) || (b == LowerCut(lower) && after == Rows(upper, p))
    requires id in Rows(upper, lower)
    ensures id in after
    ensures var r := Rows(upper, lower)[id];
            after[id] == if id in b.before then r.With(X, r.x, p - r.x)
                         else if id in b.after then r.With(X, p, r.End(X) - p) else r
  {
  }

  lemma StandingArranged(items: Items, visible: seq<string>, minimums: Minimums)
    requires Standing(items, visible, minimums)
    ensures Arrangement(items, visible)
  {
  }
}

/** What dragging a shared boundary guarantees, for every layout, boundary and request. */
module ResizeFacts {
  import opened Wrappers
  import opened Sequences
  import opened LoggerGrid
  import opened PaneGraph
  import opened PaneIds
  import opened SharedBoundaries
  import opened BoundaryFacts
  import opened Splitters
  import opened SeamFacts

  /** A collision-free layout of positive panes, with minimum sizes of at least one cell. */
  ghost predicate Standing(items: Items, visible: seq<string>, minimums: Minimums) {
    && Arrangement(items, visible)
    && HasMinimums(minimums, visible)
    && forall id :: id in visible ==> minimums[id].w >= 1 && minimums[id].h >= 1
  }

  ghost predicate AboveMinimums(items: Items, visible: seq<string>, minimums: Minimums)
    requires Present(items, visible) && HasMinimums(minimums, visible)
  {
    forall id :: id in visible ==> items[id].w >= minimums[id].w && items[id].h >= minimums[id].h
  }

  /** The position a request is turned into. */
  function Clamped(limits: Limits, requested: real): int {
    Max(limits.min, Min(limits.max, Round(requested)))
  }

  /** How far the named boundary can be moved, if there is one. */
  ghost function NamedLimits(items: Items, visible: seq<string>, minimums: Minimums, boundaryId: string): Option<Limits>
    requires Sound(items, visible, minimums)
  {
    var found := FindById(Derived(items, visible), boundaryId);
    if found.None? then None
    else
      DerivedHasSides(items, visible, minimums, found.value);
      Some(BoundaryLimits(items, found.value, minimums))
  }

  lemma LimitMembers(items: Items, b: Boundary, minimums: Minimums, id: string)
    requires HasSides(items, b, minimums)
    ensures var limits := BoundaryLimits(items, b, minimums);
            && (id in b.before ==> items[id].Pos(b.axis) + minimums[id].Size(b.axis) <= limits.min)
            && (id in b.after ==> limits.max <= items[id].End(b.axis) - minimums[id].Size(b.axis))
  {
    if id in b.before {
      var i :| 0 <= i < |b.before| && b.before[i] == id;
      var ends := LeastEnds(items, b.axis, b.before, minimums);
      assert ends[i] == items[id].Pos(b.axis) + minimums[id].Size(b.axis);
      assert ends[i] in ends;
    }
    if id in b.after {
      var i :| 0 <= i < |b.after| && b.after[i] == id;
      var starts := GreatestStarts(items, b.axis, b.after, minimums);
      assert starts[i] == items[id].End(b.axis) - minimums[id].Size(b.axis);
      assert starts[i] in starts;
    }
  }

  /** Inside the limits every pane on the boundary keeps at least its minimum. */
  lemma LimitsLeaveRoom(items: Items, visible: seq<string>, minimums: Minimums, b: Boundary, p: int)
    requires Standing(items, visible, minimums) && b in Derived(items, visible)
    ensures HasSides(items, b, minimums)
    ensures Seam(items, b)
    ensures forall id :: OnBoundary(b, id) ==> id in visible
    ensures BoundaryLimits(items, b, minimums).min <= p <= BoundaryLimits(items, b, minimums).max ==>
              && Leaves(items, b, p)
              && (forall id :: id in b.before ==> p - items[id].Pos(b.axis) >= minimums[id].Size(b.axis))
              && (forall id :: id in b.after ==> items[id].End(b.axis) - p >= minimums[id].Size(b.axis))
  {
    hide IsSharedBoundary, Derived, BoundaryLimits;
    DerivedHasSides(items, visible, minimums, b);
    SharedIsSeam(items, visible, b);
    forall id | OnBoundary(b, id)
      ensures var limits := BoundaryLimits(items, b, minimums);
              && (id in b.before ==> items[id].Pos(b.axis) + minimums[id].Size(b.axis) <= limits.min)
              && (id in b.after ==> limits.max <= items[id].End(b.axis) - minimums[id].Size(b.axis))
      ensures minimums[id].Size(b.axis) >= 1
    {
      LimitMembers(items, b, minimums, id);
    }
  }

  /**
   The final collision test of a resize never fails: it returns nothing only for a request that is
   not finite, an id no derived boundary has, or limits that exclude each other.
   */
  lemma ResizeRefusesOnlyByGuard(layout: Layout, boundaryId: string, requested: Number, minimums: Minimums,
                                 visible: seq<string>)
    requires Standing(layout.items, visible, minimums)
    ensures Resize(layout, boundaryId, requested, minimums, visible).None? <==>
              || requested.NotFinite?
              || NamedLimits(layout.items, visible, minimums, boundaryId).None?
              || var limits := NamedLimits(layout.items, visible, minimums, boundaryId).value;
                 limits.min > limits.max
  {
    hide Derived, BoundaryLimits, Shift, CollisionFree, IsSharedBoundary;
    var found := FindById(Derived(layout.items, visible), boundaryId);
    if requested.Finite? && found.Some? {
      var b := found.value;
      DerivedHasSides(layout.items, visible, minimums, b);
      var limits := BoundaryLimits(layout.items, b, minimums);
      if limits.min <= limits.max {
        var p := Clamped(limits, requested.value);
        LimitsLeaveRoom(layout.items, visible, minimums, b, p);
        ShiftKeepsArrangement(layout.items, visible, b, p);
        CollisionFreeIsDisjoint(Shift(layout.items, b, p), visible);
      }
    }
  }

  /** A resize that succeeds has moved the line of one derived boundary to a place within its limits. */
  lemma ResizeMovesOneLine(layout: Layout, boundaryId: string, requested: Number, minimums: Minimums,
                           visible: seq<string>) returns (b: Boundary, p: int)
    requires Standing(layout.items, visible, minimums)
    requires Resize(layout, boundaryId, requested, minimums, visible).Some?
    ensures b in Derived(layout.items, visible) && b.id == boundaryId
    ensures Some(b) == FindById(Derived(layout.items, visible), boundaryId)
    ensures HasSides(layout.items, b, minimums)
    ensures var limits := BoundaryLimits(layout.items, b, minimums);
            && limits.min <= p <= limits.max && requested.Finite? && p == Clamped(limits, requested.value)
            && (requested.value <= limits.min as real ==> p == limits.min)
            && (requested.value >= limits.max as real ==> p == limits.max)
            && (limits.min as real < requested.value < limits.max as real ==>
                  p as real - 0.5 <= requested.value < p as real + 0.5)
    ensures Resize(layout, boundaryId, requested, minimums, visible).value
         == layout.(items := Shift(layout.items, b, p))
  {
    hide Derived, BoundaryLimits, Shift, CollisionFree, IsSharedBoundary;
    b := FindById(Derived(layout.items, visible), boundaryId).value;
    DerivedHasSides(layout.items, visible, minimums, b);
    p := Clamped(BoundaryLimits(layout.items, b, minimums), requested.value);
    assert Round(requested.value) as real - 0.5 <= requested.value < Round(requested.value) as real + 0.5;
  }

  /**
   A resize keeps the layout an arrangement, keeps the covered cells exactly, keeps every pane on
   the boundary at or above its minimum along the moved axis, and touches no other pane.
   */
  lemma ResizeConserves(layout: Layout, boundaryId: string, requested: Number, minimums: Minimums,
                        visible: seq<string>)
    requires Standing(layout.items, visible, minimums)
    requires Resize(layout, boundaryId, requested, minimums, visible).Some?
    ensures FindById(Derived(layout.items, visible), boundaryId).Some?
    ensures var after := Resize(layout, boundaryId, requested, minimums, visible).value;
            && after.extra == layout.extra && after.items.Keys == layout.items.Keys
            && Standing(after.items, visible, minimums)
            && (forall c :: Covered(after.items, visible, c) <==> Covered(layout.items, visible, c))
            && var b := FindById(Derived(layout.items, visible), boundaryId).value;
               && (forall id :: OnBoundary(b, id) ==>
                     id in visible && after.items[id].Size(b.axis) >= minimums[id].Size(b.axis))
               && (forall id :: OnBoundary(b, id) ==>
                     && after.items[id].Size(b.axis.Cross()) == layout.items[id].Size(b.axis.Cross())
                     && after.items[id].Pos(b.axis.Cross()) == layout.items[id].Pos(b.axis.Cross()))
               && (forall id :: id in layout.items && !OnBoundary(b, id) ==> after.items[id] == layout.items[id])
  {
    hide Derived, BoundaryLimits, Shift, CollisionFree, IsSharedBoundary, Seam, Covered, Resize;
    var b, p := ResizeMovesOneLine(layout, boundaryId, requested, minimums, visible);
    LimitsLeaveRoom(layout.items, visible, minimums, b, p);
    ShiftKeys(layout.items, b, p);
    ShiftKeepsArrangement(layout.items, visible, b, p);
    ShiftConservesCells(layout.items, visible, b, p);
    forall id | id in layout.items
      ensures var r := Shift(layout.items, b, p)[id];
              if OnBoundary(b, id) then
                && id in visible && r.Size(b.axis) >= minimums[id].Size(b.axis)
                && r.Size(b.axis.Cross()) == layout.items[id].Size(b.axis.Cross())
                && r.Pos(b.axis.Cross()) == layout.items[id].Pos(b.axis.Cross())
              else r == layout.items[id]
    {
      ShiftedPane(layout.items, b, p, id);
    }
  }

  /** Minimums that held before a resize hold after it. */
  lemma ResizeKeepsMinimums(layout: Layout, boundaryId: string, requested: Number, minimums: Minimums,
                            visible: seq<string>)
    requires Standing(layout.items, visible, minimums)
    requires AboveMinimums(layout.items, visible, minimums)
    requires Resize(layout, boundaryId, requested, minimums, visible).Some?
    ensures Present(Resize(layout, boundaryId, requested, minimums, visible).value.items, visible)
    ensures AboveMinimums(Resize(layout, boundaryId, requested, minimums, visible).value.items, visible, minimums)
  {
    hide Derived, Resize, Covered, Disjoint;
    ResizeConserves(layout, boundaryId, requested, minimums, visible);
    var after := Resize(layout, boundaryId, requested, minimums, visible).value.items;
    var b := FindById(Derived(layout.items, visible), boundaryId).value;
    forall id | id in visible
      ensures id in after && after[id].w >= minimums[id].w && after[id].h >= minimums[id].h
    {
      assert !OnBoundary(b, id) ==> after[id] == layout.items[id];
      assert b.axis.X? || b.axis.Y?;
    }
  }

  // ----- The boundary survives its own resize -----

  function CellAt(axis: Axis, u: int, v: int): Cell {
    if axis.X? then Cell(u, v) else Cell(v, u)
  }

  /** Nobody outside a seam can touch its line within its stretch. */
  lemma OutsiderFacesNobody(items: Items, visible: seq<string>, b: Boundary, a: string, q: string)
    requires Arrangement(items, visible) && Seam(items, b)
    requires forall id :: OnBoundary(b, id) ==> id in visible
    requires OnBoundary(b, a) && q in visible && !OnBoundary(b, q)
    requires items[q].End(b.axis) == b.position || items[q].Pos(b.axis) == b.position
    ensures !Faces(items, b.axis, a, q)
  {
    hide Tiles, Overlap;
    var cross := b.axis.Cross();
    if Faces(items, b.axis, a, q) {
      var v := Max(items[a].Pos(cross), items[q].Pos(cross));
      Stretch(items, b, a);
      var before, after := Opposite(items, b, v);
      var u := if items[q].End(b.axis) == b.position then b.position - 1 else b.position;
      var owner := if items[q].End(b.axis) == b.position then before else after;
      var c := CellAt(b.axis, u, v);
      assert items[q].Positive() && items[owner].Positive();
      HasAlong(items[q], b.axis, c);
      HasAlong(items[owner], b.axis, c);
      OneOwner(items, visible, q, owner, c);
    }
  }

  /** Links between panes depend on nothing but their extents across the axis. */
  lemma LinkedOnlyCross(items: Items, items': Items, axis: Axis, pool: set<string>, a: string, o: string)
    requires Known(items, pool) && Known(items', pool)
    requires forall id :: id in pool ==>
               && items'[id].Pos(axis.Cross()) == items[id].Pos(axis.Cross())
               && items'[id].End(axis.Cross()) == items[id].End(axis.Cross())
    requires Linked(items, axis, pool, a, o)
    ensures Linked(items', axis, pool, a, o)
  {
    var path :| PathBetween(items, axis, pool, a, o, path);
    assert PathBetween(items', axis, pool, a, o, path);
  }

  /** The panes of a moved boundary are a connected component of the new line. */
  lemma MovedComponent(items: Items, visible: seq<string>, b: Boundary, p: int)
    requires Arrangement(items, visible) && IsSharedBoundary(items, visible, b)
    requires Seam(items, b) && Leaves(items, b, p)
    requires forall id :: OnBoundary(b, id) ==> id in visible
    ensures Present(Shift(items, b, p), visible)
    ensures IsComponent(Shift(items, b, p), b.axis, Touching(Shift(items, b, p), visible, b.axis, p),
                        Elems(b.before) + Elems(b.after))
  {
    hide Shift, Tiles, IsSharedBoundary, Overlap, Linked, Faces;
    var after := Shift(items, b, p);
    var c := Elems(b.before) + Elems(b.after);
    ShiftKeys(items, b, p);
    var oldPool, newPool := Touching(items, visible, b.axis, b.position), Touching(after, visible, b.axis, p);
    ShiftKeepsArrangement(items, visible, b, p);
    ShiftKeepsSeam(items, b, p);
    BoundaryComponent(items, visible, b);
    ComponentIsClosed(items, b.axis, oldPool, c);
    forall id | id in c
      ensures id in after && after[id].Pos(b.axis.Cross()) == items[id].Pos(b.axis.Cross())
           && after[id].End(b.axis.Cross()) == items[id].End(b.axis.Cross())
           && id in newPool
    {
      ShiftedPane(items, b, p, id);
    }
    forall a, q | a in c && q in newPool && q !in c ensures !Faces(after, b.axis, a, q) {
      OutsiderFacesNobody(after, visible, b.(position := p), a, q);
    }
    var seed := b.before[0];
    assert seed in c;
    forall id | id in c ensures Linked(after, b.axis, c, seed, id) {
      assert Linked(items, b.axis, oldPool, seed, id);
      LinkedInside(items, b.axis, oldPool, c, seed, id);
      LinkedOnlyCross(items, after, b.axis, c, seed, id);
    }
    ClosedLinkedIsComponent(after, b.axis, newPool, c, seed);
  }

  /** The sides of a moved boundary are picked out of the visible panes as before. */
  lemma MovedSides(items: Items, visible: seq<string>, b: Boundary, p: int)
    requires Present(items, visible) && IsSharedBoundary(items, visible, b)
    requires Seam(items, b) && Leaves(items, b, p)
    requires forall id :: OnBoundary(b, id) ==> id in visible
    ensures Present(Shift(items, b, p), visible)
    ensures var after, c := Shift(items, b, p), Elems(b.before) + Elems(b.after);
            && b.before == Select(visible, c * Ending(after, visible, b.axis, p))
            && b.after == Select(visible, c * Starting(after, visible, b.axis, p))
  {
    hide Shift, Tiles, IsComponent;
    var after := Shift(items, b, p);
    var c := Elems(b.before) + Elems(b.after);
    ShiftKeys(items, b, p);
    forall id | id in c
      ensures id in Ending(after, visible, b.axis, p) <==> id in Ending(items, visible, b.axis, b.position)
      ensures id in Starting(after, visible, b.axis, p) <==> id in Starting(items, visible, b.axis, b.position)
    {
      ShiftedPane(items, b, p, id);
      assert OnBoundary(b, id);
    }
    assert c * Ending(after, visible, b.axis, p) == c * Ending(items, visible, b.axis, b.position);
    assert c * Starting(after, visible, b.axis, p) == c * Starting(items, visible, b.axis, b.position);
  }

  /** Moving a boundary's line leaves that same boundary derivable, now at the new position. */
  lemma BoundarySurvives(items: Items, visible: seq<string>, b: Boundary, p: int)
    requires Arrangement(items, visible) && b in Derived(items, visible)
    requires Seam(items, b) && Leaves(items, b, p)
    requires forall id :: OnBoundary(b, id) ==> id in visible
    ensures Present(Shift(items, b, p), visible)
    ensures b.(position := p) in Derived(Shift(items, b, p), visible)
  {
    hide Shift, Tiles, IsComponent, Derived, Select;
    DerivedExactly(items, visible, b);
    MovedComponent(items, visible, b, p);
    MovedSides(items, visible, b, p);
    ShiftKeepsSeam(items, b, p);
    ShiftKeepsArrangement(items, visible, b, p);
    DerivedExactly(Shift(items, b, p), visible, b.(position := p));
  }

  /** Moving the line does not change how far it may be moved. */
  lemma LimitsSurvive(items: Items, b: Boundary, p: int, minimums: Minimums)
    requires Seam(items, b) && HasSides(items, b, minimums)
    ensures HasSides(Shift(items, b, p), b.(position := p), minimums)
    ensures BoundaryLimits(Shift(items, b, p), b.(position := p), minimums) == BoundaryLimits(items, b, minimums)
  {
    hide Shift, Tiles;
    ShiftKeys(items, b, p);
    var after := Shift(items, b, p);
    forall id | OnBoundary(b, id)
      ensures id in b.before ==> after[id].Pos(b.axis) == items[id].Pos(b.axis)
      ensures id in b.after ==> after[id].End(b.axis) == items[id].End(b.axis)
    {
      ShiftedPane(items, b, p, id);
    }
    assert LeastEnds(after, b.axis, b.before, minimums) == LeastEnds(items, b.axis, b.before, minimums);
    assert GreatestStarts(after, b.axis, b.after, minimums) == GreatestStarts(items, b.axis, b.after, minimums);
  }

  /**
   A boundary survives its own resize, whatever the pane ids: in the new layout it is derived again,
   with the same name, the same panes on each side, the same stretch and the same limits.
   */
  lemma ResizeKeepsItsBoundary(layout: Layout, boundaryId: string, requested: Number, minimums: Minimums,
                               visible: seq<string>) returns (moved: Boundary)
    requires Standing(layout.items, visible, minimums)
    requires Resize(layout, boundaryId, requested, minimums, visible).Some?
    ensures FindById(Derived(layout.items, visible), boundaryId).Some?
    ensures var b := FindById(Derived(layout.items, visible), boundaryId).value;
            var after := Resize(layout, boundaryId, requested, minimums, visible).value.items;
            && Present(after, visible)
            && moved in Derived(after, visible)
            && moved == b.(position := moved.position)
            && HasSides(layout.items, b, minimums) && HasSides(after, moved, minimums)
            && BoundaryLimits(after, moved, minimums) == BoundaryLimits(layout.items, b, minimums)
  {
    hide Shift, Derived, BoundaryLimits, Seam, CollisionFree, Round;
    var b, p := ResizeMovesOneLine(layout, boundaryId, requested, minimums, visible);
    LimitsLeaveRoom(layout.items, visible, minimums, b, p);
    BoundarySurvives(layout.items, visible, b, p);
    LimitsSurvive(layout.items, b, p, minimums);
    moved := b.(position := p);
  }

  /** Two derived boundaries with the same name are the same boundary. */
  lemma NamesAreUnique(items: Items, visible: seq<string>, b: Boundary, d: Boundary)
    requires Distinct(visible) && Present(items, visible) && Positive(items, visible) && AllPlain(visible)
    requires b in Derived(items, visible) && d in Derived(items, visible) && b.id == d.id
    ensures b == d
  {
    hide Derived, IsComponent, Tiles, BoundaryId, Select;
    DerivedExactly(items, visible, b);
    DerivedExactly(items, visible, d);
    BoundaryComponent(items, visible, b);
    BoundaryComponent(items, visible, d);
    SidesPlain(items, visible, b);
    SidesPlain(items, visible, d);
    BoundaryIdInjective(AxisName(b.axis), b.before, b.after, AxisName(d.axis), d.before, d.after);
    assert AxisName(X) != AxisName(Y);
    assert b.before[0] in Elems(b.before);
    OneBoundaryPerEdge(items, visible, b, d, b.before[0]);
  }

  lemma SidesPlain(items: Items, visible: seq<string>, b: Boundary)
    requires Present(items, visible) && AllPlain(visible) && IsSharedBoundary(items, visible, b)
    ensures AllPlain(b.before) && AllPlain(b.after)
    ensures Plain(AxisName(b.axis))
  {
    hide IsComponent, Tiles;
    BoundaryComponent(items, visible, b);
    forall id | id in b.before || id in b.after ensures id in visible {
      assert id in Elems(b.before) || id in Elems(b.after);
    }
  }

  /** After a resize, looking the boundary up by its name finds it at its new position. */
  lemma ResizedBoundaryIsFound(items: Items, visible: seq<string>, minimums: Minimums, b: Boundary, p: int)
    requires Standing(items, visible, minimums) && AllPlain(visible)
    requires b in Derived(items, visible) && HasSides(items, b, minimums)
    requires BoundaryLimits(items, b, minimums).min <= p <= BoundaryLimits(items, b, minimums).max
    ensures Standing(Shift(items, b, p), visible, minimums)
    ensures FindById(Derived(Shift(items, b, p), visible), b.id) == Some(b.(position := p))
  {
    hide Shift, Derived, BoundaryLimits, Seam;
    LimitsLeaveRoom(items, visible, minimums, b, p);
    BoundarySurvives(items, visible, b, p);
    ShiftKeepsArrangement(items, visible, b, p);
    var found := FindById(Derived(Shift(items, b, p), visible), b.id);
    assert b.(position := p).id == b.id;
    NamesAreUnique(Shift(items, b, p), visible, found.value, b.(position := p));
  }

  /**
   Path independence: after one resize the same boundary can be resized again, with the same
   limits, and the outcome is that of the last resize alone.
   */
  lemma ResizeIsPathIndependent(layout: Layout, boundaryId: string, first: Number, second: Number,
                                minimums: Minimums, visible: seq<string>)
    requires Standing(layout.items, visible, minimums) && AllPlain(visible)
    requires Resize(layout, boundaryId, first, minimums, visible).Some?
    ensures var once := Resize(layout, boundaryId, first, minimums, visible).value;
            && Standing(once.items, visible, minimums)
            && Resize(once, boundaryId, second, minimums, visible)
            == Resize(layout, boundaryId, second, minimums, visible)
  {
    hide Shift, Derived, BoundaryLimits, Seam, CollisionFree, Round;
    var b, p := ResizeMovesOneLine(layout, boundaryId, first, minimums, visible);
    var once := Resize(layout, boundaryId, first, minimums, visible).value;
    LimitsLeaveRoom(layout.items, visible, minimums, b, p);
    ResizedBoundaryIsFound(layout.items, visible, minimums, b, p);
    LimitsSurvive(layout.items, b, p, minimums);
    ResizeRefusesOnlyByGuard(once, boundaryId, second, minimums, visible);
    ResizeRefusesOnlyByGuard(layout, boundaryId, second, minimums, visible);
    if second.Finite? {
      var q := Clamped(BoundaryLimits(layout.items, b, minimums), second.value);
      ShiftTwice(layout.items, b, p, q);
    }
  }

  /** A drag can be undone: resizing back to the old position, if it is allowed, restores the layout. */
  lemma ResizeBackRestores(layout: Layout, boundaryId: string, requested: Number, minimums: Minimums,
                           visible: seq<string>)
    requires Standing(layout.items, visible, minimums) && AllPlain(visible)
    requires Resize(layout, boundaryId, requested, minimums, visible).Some?
    requires NamedLimits(layout.items, visible, minimums, boundaryId).Some?
    requires var limits := NamedLimits(layout.items, visible, minimums, boundaryId).value;
             limits.min <= FindById(Derived(layout.items, visible), boundaryId).value.position <= limits.max
    ensures var b := FindById(Derived(layout.items, visible), boundaryId).value;
            var once := Resize(layout, boundaryId, requested, minimums, visible).value;
            && Standing(once.items, visible, minimums)
            && Resize(once, boundaryId, Finite(b.position as real), minimums, visible) == Some(layout)
  {
    hide Shift, Derived, BoundaryLimits, Seam, CollisionFree;
    var b, p := ResizeMovesOneLine(layout, boundaryId, requested, minimums, visible);
    ResizeIsPathIndependent(layout, boundaryId, requested, Finite(b.position as real), minimums, visible);
    RoundInt(b.position);
    ResizeRefusesOnlyByGuard(layout, boundaryId, Finite(b.position as real), minimums, visible);
    LimitsLeaveRoom(layout.items, visible, minimums, b, b.position);
    ShiftInPlace(layout.items, b);
  }

  /** Where every pane has its minimum, every boundary stands within its own limits. */
  lemma StandsWithinLimits(items: Items, visible: seq<string>, minimums: Minimums, b: Boundary)
    requires Standing(items, visible, minimums) && AboveMinimums(items, visible, minimums)
    requires b in Derived(items, visible)
    ensures HasSides(items, b, minimums)
    ensures BoundaryLimits(items, b, minimums).min <= b.position <= BoundaryLimits(items, b, minimums).max
  {
    hide Derived, IsSharedBoundary, Tiles;
    DerivedHasSides(items, visible, minimums, b);
    SharedIsSeam(items, visible, b);
    var ends, starts := LeastEnds(items, b.axis, b.before, minimums), GreatestStarts(items, b.axis, b.after, minimums);
    forall v | v in ends ensures v <= b.position {
      var i :| 0 <= i < |ends| && ends[i] == v;
      assert b.before[i] in visible;
    }
    forall v | v in starts ensures b.position <= v {
      var i :| 0 <= i < |starts| && starts[i] == v;
      assert b.after[i] in visible;
    }
  }

  lemma RoundInt(n: int)
    ensures Round(n as real) == n
  {
    assert (n as real + 0.5).Floor == n;
  }

  lemma ShiftInPlace(items: Items, b: Boundary)
    requires Seam(items, b)
    ensures Shift(items, b, b.position) == items
  {
    hide Shift, Tiles;
    ShiftKeys(items, b, b.position);
    forall id | id in items ensures Shift(items, b, b.position)[id] == items[id] {
      ShiftedPane(items, b, b.position, id);
    }
  }
}

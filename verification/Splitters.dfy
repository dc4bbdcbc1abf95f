/**
 Dragging a shared boundary, and docking a pane at an edge of another. Both rewrite several panes
 at once and hand the result out only if it passes the collision test.
 */
module Splitters {
  import opened Wrappers
  import opened Sequences
  import opened LoggerGrid
  import opened SharedBoundaries
  import opened BoundaryFacts

  datatype MinSize = MinSize(w: int, h: int) {
    function Size(axis: Axis): int {
      if axis.X? then w else h
    }
  }

  type Minimums = map<string, MinSize>

  ghost predicate HasMinimums(minimums: Minimums, ids: seq<string>) {
    forall id :: id in ids ==> id in minimums
  }

  // ----- Limits -----

  datatype Limits = Limits(min: int, max: int)

  /** How far the panes before the line can be squeezed towards their own start. */
  function LeastEnds(items: Items, axis: Axis, ids: seq<string>, minimums: Minimums): seq<int>
    requires Present(items, ids) && HasMinimums(minimums, ids)
  {
    seq(|ids|, i requires 0 <= i < |ids| => items[ids[i]].Pos(axis) + minimums[ids[i]].Size(axis))
  }

  /** How far the panes after the line can be squeezed towards their own end. */
  function GreatestStarts(items: Items, axis: Axis, ids: seq<string>, minimums: Minimums): seq<int>
    requires Present(items, ids) && HasMinimums(minimums, ids)
  {
    seq(|ids|, i requires 0 <= i < |ids| => items[ids[i]].End(axis) - minimums[ids[i]].Size(axis))
  }

  ghost predicate HasSides(items: Items, b: Boundary, minimums: Minimums) {
    && b.before != [] && b.after != []
    && Present(items, b.before) && Present(items, b.after)
    && (forall id :: id in b.before || id in b.after ==> id in minimums)
  }

  function BoundaryLimits(items: Items, b: Boundary, minimums: Minimums): Limits
    requires HasSides(items, b, minimums)
  {
    Limits(MaxOf(LeastEnds(items, b.axis, b.before, minimums)),
           MinOf(GreatestStarts(items, b.axis, b.after, minimums)))
  }

  // ----- Resizing -----

  /** The panes before the line end delta further along. */
  function Grow(items: Items, axis: Axis, ids: set<string>, delta: int): Items {
    map id | id in items ::
      if id in ids then items[id].With(axis, items[id].Pos(axis), items[id].Size(axis) + delta) else items[id]
  }

  /** The panes after the line start at the new position and are delta smaller. */
  function Pull(items: Items, axis: Axis, ids: set<string>, position: int, delta: int): Items {
    map id | id in items ::
      if id in ids then items[id].With(axis, position, items[id].Size(axis) - delta) else items[id]
  }

  /** The layout's panes with the boundary's line moved. */
  function Shift(items: Items, b: Boundary, position: int): Items {
    Pull(Grow(items, b.axis, Elems(b.before), position - b.position),
         b.axis, Elems(b.after), position, position - b.position)
  }

  function FindById(boundaries: seq<Boundary>, id: string): (r: Option<Boundary>)
    ensures r.Some? ==> r.value in boundaries && r.value.id == id
    ensures r.None? ==> forall b :: b in boundaries ==> b.id != id
  {
    if boundaries == [] then None
    else if boundaries[0].id == id then Some(boundaries[0])
    else FindById(boundaries[1..], id)
  }

  /** The standing assumptions on a layout and its minimum sizes. */
  ghost predicate Sound(items: Items, visible: seq<string>, minimums: Minimums) {
    && Distinct(visible) && Present(items, visible) && Positive(items, visible)
    && HasMinimums(minimums, visible)
  }

  lemma DerivedHasSides(items: Items, visible: seq<string>, minimums: Minimums, b: Boundary)
    requires Sound(items, visible, minimums) && b in Derived(items, visible)
    ensures HasSides(items, b, minimums)
    ensures IsSharedBoundary(items, visible, b)
    ensures Distinct(b.before) && Distinct(b.after)
    ensures forall id :: id in b.before || id in b.after ==> id in visible
    ensures forall id :: id in b.before ==> id !in b.after
  {
    DerivedExactly(items, visible, b);
    BoundaryComponent(items, visible, b);
    SelectDistinct(visible, (Elems(b.before) + Elems(b.after)) * Ending(items, visible, b.axis, b.position));
    SelectDistinct(visible, (Elems(b.before) + Elems(b.after)) * Starting(items, visible, b.axis, b.position));
    forall id | id in b.before || id in b.after ensures id in visible && !(id in b.before && id in b.after) {
      assert id in Elems(b.before) || id in Elems(b.after);
      assert id in b.before ==> id in Ending(items, visible, b.axis, b.position);
      assert id in b.after ==> id in Starting(items, visible, b.axis, b.position);
      assert id in visible ==> items[id].Positive();
    }
  }

  ghost function Resize(layout: Layout, boundaryId: string, requested: Number, minimums: Minimums,
                        visible: seq<string>): Option<Layout>
    requires Sound(layout.items, visible, minimums)
  {
    if requested.NotFinite? then None
    else
      var found := FindById(Derived(layout.items, visible), boundaryId);
      if found.None? then None
      else
        DerivedHasSides(layout.items, visible, minimums, found.value);
        var limits := BoundaryLimits(layout.items, found.value, minimums);
        if limits.min > limits.max then None
        else
          var position := Max(limits.min, Min(limits.max, Round(requested.value)));
          var candidate := layout.(items := Shift(layout.items, found.value, position));
          if CollisionFree(candidate.items, visible) then Some(candidate) else None
  }

  method GrowPanes(items: Items, axis: Axis, ids: seq<string>, delta: int) returns (r: Items)
    requires Present(items, ids) && Distinct(ids)
    ensures r == Grow(items, axis, Elems(ids), delta)
  {
    r := items;
    for i := 0 to |ids|
      invariant r == Grow(items, axis, Elems(ids[..i]), delta)
    {
      var id := ids[i];
      assert id !in ids[..i];
      assert Elems(ids[..i + 1]) == Elems(ids[..i]) + {id};
      r := r[id := r[id].With(axis, r[id].Pos(axis), r[id].Size(axis) + delta)];
    }
    assert ids[..|ids|] == ids;
  }

  method PullPanes(items: Items, axis: Axis, ids: seq<string>, position: int, delta: int) returns (r: Items)
    requires Present(items, ids) && Distinct(ids)
    ensures r == Pull(items, axis, Elems(ids), position, delta)
  {
    r := items;
    for i := 0 to |ids|
      invariant r == Pull(items, axis, Elems(ids[..i]), position, delta)
    {
      var id := ids[i];
      assert id !in ids[..i];
      assert Elems(ids[..i + 1]) == Elems(ids[..i]) + {id};
      r := r[id := r[id].With(axis, position, r[id].Size(axis) - delta)];
    }
    assert ids[..|ids|] == ids;
  }

  method ResizeSharedBoundary(layout: Layout, boundary: Boundary, requested: Number, minimums: Minimums,
                              visible: seq<string>) returns (r: Option<Layout>)
    requires Sound(layout.items, visible, minimums)
    ensures r == Resize(layout, boundary.id, requested, minimums, visible)
  {
    hide Derived, IsSharedBoundary, CollisionFree, BoundaryLimits;
    if requested.NotFinite? {
      return None;
    }
    var derived := DeriveSharedBoundaries(layout, visible);
    var found := FindById(derived, boundary.id);
    if found.None? {
      return None;
    }
    var current := found.value;
    DerivedHasSides(layout.items, visible, minimums, current);
    var limits := BoundaryLimits(layout.items, current, minimums);
    if limits.min > limits.max {
      return None;
    }
    var position := Max(limits.min, Min(limits.max, Round(requested.value)));
    var delta := position - current.position;
    var items := GrowPanes(layout.items, current.axis, current.before, delta);
    items := PullPanes(items, current.axis, current.after, position, delta);
    var candidate := layout.(items := items);
    var free := LayoutIsCollisionFree(candidate, visible);
    return if free then Some(candidate) else None;
  }

  // ----- Docking -----

  datatype Edge = Left | Right | Top | Bottom

  function EdgeAxis(edge: Edge): Axis {
    if edge.Left? || edge.Right? then X else Y
  }

  /** The pane has one whole side of the boundary to itself. */
  predicate AloneOn(b: Boundary, moving: string) {
    b.before == [moving] || b.after == [moving]
  }

  function FindAlone(boundaries: seq<Boundary>, moving: string): (r: Option<Boundary>)
    ensures r.Some? ==> r.value in boundaries && AloneOn(r.value, moving)
    ensures r.None? ==> forall b :: b in boundaries ==> !AloneOn(b, moving)
  {
    if boundaries == [] then None
    else if AloneOn(boundaries[0], moving) then Some(boundaries[0])
    else FindAlone(boundaries[1..], moving)
  }

  /** The neighbours take over the extent of the pane that leaves. */
  function Absorb(items: Items, axis: Axis, ids: set<string>, gone: Rect, goneBefore: bool): Items {
    map id | id in items ::
      if id in ids
      then items[id].With(axis, if goneBefore then gone.Pos(axis) else items[id].Pos(axis),
                          items[id].Size(axis) + gone.Size(axis))
      else items[id]
  }

  /** The panes after the moving pane has left its place. */
  function Heal(items: Items, former: Option<Boundary>, moving: string): (r: Items)
    requires moving in items
    ensures r.Keys == items.Keys
  {
    if former.None? then items
    else
      var b := former.value;
      var movingBefore := moving in b.before;
      Absorb(items, b.axis, Elems(if movingBefore then b.after else b.before), items[moving], movingBefore)
  }

  ghost function FormerBoundary(items: Items, visible: seq<string>, moving: string): Option<Boundary>
    requires Present(items, visible)
  {
    FindAlone(Derived(items, visible), moving)
  }

  /** The panes once the moving pane's old place has been healed. */
  ghost function Vacated(items: Items, visible: seq<string>, moving: string): (r: Items)
    requires Present(items, visible) && moving in items
    ensures r.Keys == items.Keys
  {
    Heal(items, FormerBoundary(items, visible, moving), moving)
  }

  /** The target's rectangle is big enough to hold both panes side by side. */
  predicate RoomForBoth(rect: Rect, axis: Axis, moving: MinSize, target: MinSize) {
    && rect.Size(axis) >= moving.Size(axis) + target.Size(axis)
    && rect.Size(axis.Cross()) >= Max(moving.Size(axis.Cross()), target.Size(axis.Cross()))
  }

  /** Where the cut falls: half way, unless a minimum pushes it to one side. */
  function FirstSize(size: int, firstMin: int, secondMin: int): int {
    Max(firstMin, Min(size - secondMin, Round(size as real / 2.0)))
  }

  /** The rectangle cut in two across the axis. */
  function Split(items: Items, rect: Rect, axis: Axis, first: string, second: string, firstSize: int): Items {
    items[first := rect.With(axis, rect.Pos(axis), firstSize)]
         [second := rect.With(axis, rect.Pos(axis) + firstSize, rect.Size(axis) - firstSize)]
  }

  ghost function Dock(layout: Layout, moving: string, target: string, edge: Edge, minimums: Minimums,
                      visible: seq<string>): Option<Layout>
    requires Sound(layout.items, visible, minimums)
  {
    if moving == target || moving !in visible || target !in visible then None
    else
      var healed := Vacated(layout.items, visible, moving);
      var axis := EdgeAxis(edge);
      if !RoomForBoth(healed[target], axis, minimums[moving], minimums[target]) then None
      else
        var first := if edge.Left? || edge.Top? then moving else target;
        var second := if first == moving then target else moving;
        var firstSize := FirstSize(healed[target].Size(axis), minimums[first].Size(axis), minimums[second].Size(axis));
        var candidate := layout.(items := Split(healed, healed[target], axis, first, second, firstSize));
        if CollisionFree(candidate.items, visible) then Some(candidate) else None
  }

  method AbsorbPanes(items: Items, axis: Axis, ids: seq<string>, gone: Rect, goneBefore: bool) returns (r: Items)
    requires Present(items, ids) && Distinct(ids)
    ensures r == Absorb(items, axis, Elems(ids), gone, goneBefore)
  {
    r := items;
    for i := 0 to |ids|
      invariant r == Absorb(items, axis, Elems(ids[..i]), gone, goneBefore)
    {
      var id := ids[i];
      assert id !in ids[..i];
      assert Elems(ids[..i + 1]) == Elems(ids[..i]) + {id};
      var neighbor := r[id];
      r := r[id := neighbor.With(axis, if goneBefore then gone.Pos(axis) else neighbor.Pos(axis),
                                 neighbor.Size(axis) + gone.Size(axis))];
    }
    assert ids[..|ids|] == ids;
  }

  method VacatePane(layout: Layout, visible: seq<string>, ghost minimums: Minimums, moving: string)
    returns (itemsAfterRemoval: Items)
    requires Sound(layout.items, visible, minimums) && moving in visible
    ensures itemsAfterRemoval == Vacated(layout.items, visible, moving)
  {
    hide Derived, IsSharedBoundary;
    itemsAfterRemoval := layout.items;
    var derived := DeriveSharedBoundaries(layout, visible);
    var former := FindAlone(derived, moving);
    if former.Some? {
      DerivedHasSides(layout.items, visible, minimums, former.value);
      var movingBefore := moving in former.value.before;
      itemsAfterRemoval := AbsorbPanes(layout.items, former.value.axis,
                                       if movingBefore then former.value.after else former.value.before,
                                       layout.items[moving], movingBefore);
    }
  }

  method DockAtEdge(layout: Layout, moving: string, target: string, edge: Edge, minimums: Minimums,
                    visible: seq<string>) returns (r: Option<Layout>)
    requires Sound(layout.items, visible, minimums)
    ensures r == Dock(layout, moving, target, edge, minimums, visible)
  {
    hide Vacated, CollisionFree, RoomForBoth, Round, Min, Max, Rect.With, Rect.Pos, Rect.Size, MinSize.Size;
    if moving == target || moving !in visible || target !in visible {
      return None;
    }
    var itemsAfterRemoval := VacatePane(layout, visible, minimums, moving);
    var rect := itemsAfterRemoval[target];
    var axis := EdgeAxis(edge);
    if !RoomForBoth(rect, axis, minimums[moving], minimums[target]) {
      return None;
    }
    var first := if edge.Left? || edge.Top? then moving else target;
    var second := if first == moving then target else moving;
    var firstSize := Max(minimums[first].Size(axis),
                         Min(rect.Size(axis) - minimums[second].Size(axis), Round(rect.Size(axis) as real / 2.0)));
    var items := itemsAfterRemoval[first := rect.With(axis, rect.Pos(axis), firstSize)]
                                  [second := rect.With(axis, rect.Pos(axis) + firstSize, rect.Size(axis) - firstSize)];
    var candidate := layout.(items := items);
    var free := LayoutIsCollisionFree(candidate, visible);
    return if free then Some(candidate) else None;
  }
}

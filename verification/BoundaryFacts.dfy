/**
 What a derived boundary is, said geometrically, and the proof that the derivation reports exactly
 those: every one of them, nothing else.
 */
module BoundaryFacts {
  import opened Wrappers
  import opened Sequences
  import opened LoggerGrid
  import opened PaneGraph
  import opened PaneIds
  import opened SharedBoundaries

  /** Some pane of the set spans this coordinate. */
  ghost predicate Spanned(items: Items, axis: Axis, ids: set<string>, v: int)
    requires Known(items, ids)
  {
    exists id :: id in ids && items[id].Pos(axis) <= v < items[id].End(axis)
  }

  /** The panes cut the stretch [start, end) into pieces: no gap, no overlap, nothing outside. */
  ghost predicate Tiles(items: Items, axis: Axis, ids: set<string>, start: int, end: int)
    requires Known(items, ids)
  {
    && (forall id :: id in ids ==> start <= items[id].Pos(axis) && items[id].End(axis) <= end)
    && (forall a, b :: a in ids && b in ids && a != b ==> !OverlapAlong(items[a], items[b], axis))
    && (forall v :: start <= v < end ==> Spanned(items, axis, ids, v))
  }

  /**
   A shared boundary: a connected component of the panes that touch a line, with panes on both
   sides, both of which tile the same stretch of the line. Its sides are listed in visible order.
   */
  ghost predicate IsSharedBoundary(items: Items, visible: seq<string>, b: Boundary)
    requires Present(items, visible)
  {
    var c := Elems(b.before) + Elems(b.after);
    && b.before != [] && b.after != []
    && b.before == Select(visible, c * Ending(items, visible, b.axis, b.position))
    && b.after == Select(visible, c * Starting(items, visible, b.axis, b.position))
    && IsComponent(items, b.axis, Touching(items, visible, b.axis, b.position), c)
    && Tiles(items, b.axis.Cross(), Elems(b.before), b.start, b.end)
    && Tiles(items, b.axis.Cross(), Elems(b.after), b.start, b.end)
    && b.id == BoundaryId(AxisName(b.axis), b.before, b.after)
  }

  // ----- The cursor walk recognises tilings -----

  /** Different panes, listed by where they start. */
  ghost predicate Ascending(items: Items, axis: Axis, ids: seq<string>)
    requires Present(items, ids)
  {
    ids == [] ||
    var head, rest := ids[0], ids[1..];
    && (forall id :: id in rest ==> id != head && items[head].Pos(axis) <= items[id].Pos(axis))
    && Ascending(items, axis, rest)
  }

  lemma {:induction false} InsertByStartAscending(items: Items, axis: Axis, id: string, ids: seq<string>)
    requires id in items && Present(items, ids) && Ascending(items, axis, ids) && id !in ids
    ensures Ascending(items, axis, InsertByStart(items, axis, id, ids))
  {
    if ids == [] {
    } else if items[id].Pos(axis) <= items[ids[0]].Pos(axis) {
      assert ([id] + ids)[1..] == ids;
      assert forall x :: x in ids ==> x == ids[0] || x in ids[1..];
    } else {
      InsertByStartAscending(items, axis, id, ids[1..]);
      var t := InsertByStart(items, axis, id, ids[1..]);
      assert ([ids[0]] + t)[1..] == t;
      assert id != ids[0];
    }
  }

  lemma {:induction false} SortByStartAscending(items: Items, axis: Axis, ids: seq<string>)
    requires Present(items, ids) && Distinct(ids)
    ensures Ascending(items, axis, SortByStart(items, axis, ids))
  {
    if ids != [] {
      SortByStartAscending(items, axis, ids[1..]);
      InsertByStartAscending(items, axis, ids[0], SortByStart(items, axis, ids[1..]));
    }
  }

  lemma {:induction false} WalkTiles(items: Items, axis: Axis, ids: seq<string>, cursor: int, end: int)
    requires Present(items, ids) && Ascending(items, axis, ids)
    requires forall id :: id in ids ==> items[id].Size(axis) > 0
    requires Walks(items, axis, ids, cursor, end)
    ensures cursor <= end
    ensures Tiles(items, axis, Elems(ids), cursor, end)
  {
    if ids != [] {
      var head, rest := ids[0], ids[1..];
      assert ids == [head] + rest;
      assert Elems(ids) == {head} + Elems(rest);
      var next := cursor + items[head].Size(axis);
      WalkTiles(items, axis, rest, next, end);
      forall v | cursor <= v < end ensures Spanned(items, axis, Elems(ids), v) {
        if v < next {
          assert head in Elems(ids);
        } else {
          assert Spanned(items, axis, Elems(rest), v);
        }
      }
    }
  }

  /** In a tiling, the pane that starts first starts at the start. */
  lemma TilingStart(items: Items, axis: Axis, ids: set<string>, head: string, cursor: int, end: int)
    requires Known(items, ids) && head in ids && items[head].Size(axis) > 0
    requires forall id :: id in ids ==> items[head].Pos(axis) <= items[id].Pos(axis)
    requires Tiles(items, axis, ids, cursor, end)
    ensures items[head].Pos(axis) == cursor && items[head].End(axis) <= end
  {
    assert Spanned(items, axis, ids, cursor);
  }

  /** Without its first pane, a tiling tiles what is left. */
  lemma TilingRest(items: Items, axis: Axis, ids: set<string>, head: string, cursor: int, end: int)
    requires Known(items, ids) && head in ids
    requires forall id :: id in ids ==> items[id].Size(axis) > 0
    requires items[head].Pos(axis) == cursor
    requires Tiles(items, axis, ids, cursor, end)
    ensures Tiles(items, axis, ids - {head}, items[head].End(axis), end)
  {
    var next := items[head].End(axis);
    forall id | id in ids - {head} ensures next <= items[id].Pos(axis) {
      assert !OverlapAlong(items[head], items[id], axis);
    }
    forall v | next <= v < end ensures Spanned(items, axis, ids - {head}, v) {
      assert Spanned(items, axis, ids, v);
      var id :| id in ids && items[id].Pos(axis) <= v < items[id].End(axis);
      assert id in ids - {head};
    }
  }

  lemma {:induction false} TilesWalk(items: Items, axis: Axis, ids: seq<string>, cursor: int, end: int)
    requires Present(items, ids) && Ascending(items, axis, ids)
    requires forall id :: id in ids ==> items[id].Size(axis) > 0
    requires cursor <= end
    requires Tiles(items, axis, Elems(ids), cursor, end)
    ensures Walks(items, axis, ids, cursor, end)
  {
    if ids == [] {
      assert cursor < end ==> Spanned(items, axis, Elems(ids), cursor);
    } else {
      var head, rest := ids[0], ids[1..];
      assert ids == [head] + rest;
      assert Elems(ids) == {head} + Elems(rest);
      assert Elems(rest) == Elems(ids) - {head};
      TilingStart(items, axis, Elems(ids), head, cursor, end);
      TilingRest(items, axis, Elems(ids), head, cursor, end);
      TilesWalk(items, axis, rest, items[head].End(axis), end);
    }
  }

  /** The "covers" test of the derivation accepts exactly the tilings. */
  lemma CoversIsTiling(items: Items, axis: Axis, ids: seq<string>, start: int, end: int)
    requires Present(items, ids) && Distinct(ids)
    requires forall id :: id in ids ==> items[id].Size(axis) > 0
    requires start <= end
    ensures Covers(items, axis, ids, start, end) <==> Tiles(items, axis, Elems(ids), start, end)
  {
    var sorted := SortByStart(items, axis, ids);
    SortByStartAscending(items, axis, ids);
    assert Elems(sorted) == Elems(ids);
    if Covers(items, axis, ids, start, end) {
      WalkTiles(items, axis, sorted, start, end);
    }
    if Tiles(items, axis, Elems(ids), start, end) {
      TilesWalk(items, axis, sorted, start, end);
    }
  }

  /** A non-empty tiling determines its stretch. */
  lemma TiledStretch(items: Items, axis: Axis, ids: seq<string>, start: int, end: int)
    requires Present(items, ids) && ids != []
    requires forall id :: id in ids ==> items[id].Size(axis) > 0
    requires Tiles(items, axis, Elems(ids), start, end)
    ensures start < end
    ensures MinOf(Starts(items, axis, ids)) == start && MaxOf(Ends(items, axis, ids)) == end
  {
    assert ids[0] in Elems(ids);
    assert Spanned(items, axis, Elems(ids), start);
    assert Spanned(items, axis, Elems(ids), end - 1);
    var first :| first in Elems(ids) && items[first].Pos(axis) <= start < items[first].End(axis);
    var last :| last in Elems(ids) && items[last].Pos(axis) <= end - 1 < items[last].End(axis);
    forall id | id in ids
      ensures items[first].Pos(axis) <= items[id].Pos(axis) && items[id].End(axis) <= items[last].End(axis)
    {
      assert id in Elems(ids);
    }
    ExtentIs(items, axis, ids, first, last);
  }

  // ----- One component -----

  ghost predicate SizedAlong(items: Items, visible: seq<string>, axis: Axis)
    requires Present(items, visible)
  {
    forall id :: id in visible ==> items[id].Size(axis) > 0
  }

  /** The sides a component is split into. */
  function SideBefore(items: Items, visible: seq<string>, axis: Axis, position: int, c: set<string>): seq<string>
    requires Present(items, visible)
  {
    Select(Select(visible, Ending(items, visible, axis, position)), c)
  }

  function SideAfter(items: Items, visible: seq<string>, axis: Axis, position: int, c: set<string>): seq<string>
    requires Present(items, visible)
  {
    Select(Select(visible, Starting(items, visible, axis, position)), c)
  }

  lemma SidesOfComponent(items: Items, visible: seq<string>, axis: Axis, position: int, c: set<string>)
    requires Distinct(visible) && Present(items, visible)
    requires c <= Touching(items, visible, axis, position)
    ensures var left := SideBefore(items, visible, axis, position, c);
            var right := SideAfter(items, visible, axis, position, c);
            && Present(items, left + right) && Distinct(left) && Distinct(right)
            && Elems(left) + Elems(right) == c
            && (forall id :: id in left || id in right ==> id in visible)
            && left == Select(visible, c * Ending(items, visible, axis, position))
            && right == Select(visible, c * Starting(items, visible, axis, position))
  {
    var e, s := Ending(items, visible, axis, position), Starting(items, visible, axis, position);
    SelectSelect(visible, e, c);
    SelectSelect(visible, s, c);
    SelectCongruence(visible, e * c, c * e);
    SelectCongruence(visible, s * c, c * s);
    SelectDistinct(visible, c * e);
    SelectDistinct(visible, c * s);
    forall id | id in c ensures id in Select(visible, c * e) || id in Select(visible, c * s) {
      assert id in e || id in s;
    }
  }

  /** What a component reports is a shared boundary. */
  lemma ReportSound(items: Items, visible: seq<string>, axis: Axis, position: int, c: set<string>, b: Boundary)
    requires Distinct(visible) && Present(items, visible) && SizedAlong(items, visible, axis.Cross())
    requires IsComponent(items, axis, Touching(items, visible, axis, position), c)
    requires var left := SideBefore(items, visible, axis, position, c);
            var right := SideAfter(items, visible, axis, position, c);
             Present(items, left + right) && b in ReportComponent(items, axis, position, left, right)
    ensures IsSharedBoundary(items, visible, b) && b.axis == axis && b.position == position
  {
    hide IsComponent, Covers, Tiles, Select;
    var left, right := SideBefore(items, visible, axis, position, c), SideAfter(items, visible, axis, position, c);
    ComponentInPool(items, axis, Touching(items, visible, axis, position), c);
    SidesOfComponent(items, visible, axis, position, c);
    ExtentOrdered(items, axis.Cross(), left + right);
    CoversIsTiling(items, axis.Cross(), left, b.start, b.end);
    CoversIsTiling(items, axis.Cross(), right, b.start, b.end);
  }

  lemma ComponentInPool(items: Items, axis: Axis, pool: set<string>, c: set<string>)
    requires Known(items, pool) && IsComponent(items, axis, pool, c)
    ensures c <= pool
  {
  }

  lemma ExtentOrdered(items: Items, axis: Axis, ids: seq<string>)
    requires Present(items, ids) && ids != []
    requires forall id :: id in ids ==> items[id].Size(axis) > 0
    ensures MinOf(Starts(items, axis, ids)) <= MaxOf(Ends(items, axis, ids))
  {
    assert ids[0] in ids;
    ExtentMembers(items, axis, ids, ids[0]);
  }

  /** A shared boundary is what its component reports. */
  lemma ReportComplete(items: Items, visible: seq<string>, b: Boundary)
    requires Distinct(visible) && Present(items, visible) && SizedAlong(items, visible, b.axis.Cross())
    requires IsSharedBoundary(items, visible, b)
    ensures var c := Elems(b.before) + Elems(b.after);
            && SideBefore(items, visible, b.axis, b.position, c) == b.before
            && SideAfter(items, visible, b.axis, b.position, c) == b.after
            && Present(items, b.before + b.after)
            && ReportComponent(items, b.axis, b.position, b.before, b.after) == [b]
  {
    hide IsComponent, Covers, Tiles, Select;
    var c := Elems(b.before) + Elems(b.after);
    ComponentInPool(items, b.axis, Touching(items, visible, b.axis, b.position), c);
    SidesOfComponent(items, visible, b.axis, b.position, c);
    TilesTogether(items, b.axis.Cross(), b.before, b.after, b.start, b.end);
    CoversIsTiling(items, b.axis.Cross(), b.before, b.start, b.end);
    CoversIsTiling(items, b.axis.Cross(), b.after, b.start, b.end);
  }

  lemma TilesTogether(items: Items, axis: Axis, left: seq<string>, right: seq<string>, start: int, end: int)
    requires Present(items, left) && Present(items, right) && left != [] && right != []
    requires forall id :: id in left || id in right ==> items[id].Size(axis) > 0
    requires Tiles(items, axis, Elems(left), start, end) && Tiles(items, axis, Elems(right), start, end)
    ensures Present(items, left + right) && start < end
    ensures MinOf(Starts(items, axis, left + right)) == start && MaxOf(Ends(items, axis, left + right)) == end
  {
    assert left[0] in left;
    assert left[0] in Elems(left);
    assert Spanned(items, axis, Elems(left), start);
    assert Spanned(items, axis, Elems(left), end - 1);
    var first :| first in Elems(left) && items[first].Pos(axis) <= start < items[first].End(axis);
    var last :| last in Elems(left) && items[last].Pos(axis) <= end - 1 < items[last].End(axis);
    forall id | id in left + right
      ensures items[first].Pos(axis) <= items[id].Pos(axis) && items[id].End(axis) <= items[last].End(axis)
    {
      assert id in Elems(left) || id in Elems(right);
    }
    ExtentIs(items, axis, left + right, first, last);
  }

  // ----- The whole derivation -----

  /** Taking a component out of a closed part leaves a closed part. */
  lemma ClosedWithout(items: Items, axis: Axis, pool: set<string>, inside: set<string>, c: set<string>)
    requires Known(items, pool) && Closed(items, axis, pool, inside) && Closed(items, axis, pool, c)
    ensures Closed(items, axis, pool, inside - c)
  {
    forall a, b | a in inside - c && b in pool && b !in inside - c ensures !Faces(items, axis, a, b) {
      if b in c {
        assert !Faces(items, axis, b, a);
      }
    }
  }

  /** The first pending pane's component within the pending panes is a component of the whole line. */
  lemma NextComponent(items: Items, visible: seq<string>, axis: Axis, position: int, pending: seq<string>)
    returns (c: set<string>)
    requires Present(items, visible) && pending != []
    requires Closed(items, axis, Touching(items, visible, axis, position), Elems(pending))
    ensures Known(items, Elems(pending)) && Present(items, pending)
    ensures c == ComponentOf(items, axis, Elems(pending), pending[0]) && pending[0] in c && c <= Elems(pending)
    ensures IsComponent(items, axis, Touching(items, visible, axis, position), c)
    ensures Closed(items, axis, Touching(items, visible, axis, position), Elems(pending) - c)
    ensures Elems(Select(pending, Elems(pending) - c)) == Elems(pending) - c
    ensures |Select(pending, Elems(pending) - c)| < |pending|
  {
    hide Linked;
    var pool := Touching(items, visible, axis, position);
    assert pending[0] in Elems(pending);
    ComponentInside(items, axis, pool, Elems(pending), pending[0]);
    c := ComponentOf(items, axis, Elems(pending), pending[0]);
    ComponentOfIsComponent(items, axis, pool, pending[0]);
    ClosedWithout(items, axis, pool, Elems(pending), c);
    SelectShorter(pending, c);
  }

  lemma {:induction false} ComponentsSound(items: Items, visible: seq<string>, axis: Axis, position: int,
                                           pending: seq<string>, b: Boundary)
    requires Distinct(visible) && Present(items, visible) && SizedAlong(items, visible, axis.Cross())
    requires Closed(items, axis, Touching(items, visible, axis, position), Elems(pending))
    requires Present(items, pending)
    requires b in ReportComponents(items, axis, position, Select(visible, Ending(items, visible, axis, position)),
                                   Select(visible, Starting(items, visible, axis, position)), pending)
    ensures IsSharedBoundary(items, visible, b) && b.axis == axis && b.position == position
    decreases |pending|
  {
    hide Closed, IsComponent, IsSharedBoundary, ReportComponent, ComponentOf;
    if pending != [] {
      var c := NextComponent(items, visible, axis, position, pending);
      var rest := Select(pending, Elems(pending) - c);
      ComponentInPool(items, axis, Touching(items, visible, axis, position), c);
      SidesOfComponent(items, visible, axis, position, c);
      if b in ReportComponent(items, axis, position, SideBefore(items, visible, axis, position, c),
                              SideAfter(items, visible, axis, position, c)) {
        ReportSound(items, visible, axis, position, c, b);
      } else {
        ComponentsSound(items, visible, axis, position, rest, b);
      }
    }
  }

  lemma BoundaryComponent(items: Items, visible: seq<string>, b: Boundary)
    requires Present(items, visible) && IsSharedBoundary(items, visible, b)
    ensures b.before != [] && b.after != []
    ensures IsComponent(items, b.axis, Touching(items, visible, b.axis, b.position), Elems(b.before) + Elems(b.after))
    ensures Elems(b.before) <= Ending(items, visible, b.axis, b.position)
    ensures Elems(b.after) <= Starting(items, visible, b.axis, b.position)
  {
  }

  lemma {:induction false} ComponentsComplete(items: Items, visible: seq<string>, pending: seq<string>, b: Boundary)
    requires Distinct(visible) && Present(items, visible) && SizedAlong(items, visible, b.axis.Cross())
    requires Closed(items, b.axis, Touching(items, visible, b.axis, b.position), Elems(pending))
    requires Present(items, pending)
    requires IsSharedBoundary(items, visible, b)
    requires Elems(b.before) + Elems(b.after) <= Elems(pending)
    ensures b in ReportComponents(items, b.axis, b.position,
                                  Select(visible, Ending(items, visible, b.axis, b.position)),
                                  Select(visible, Starting(items, visible, b.axis, b.position)), pending)
    decreases |pending|
  {
    hide Closed, IsComponent, IsSharedBoundary, ReportComponent, ComponentOf;
    var pool := Touching(items, visible, b.axis, b.position);
    var whole := Elems(b.before) + Elems(b.after);
    BoundaryComponent(items, visible, b);
    assert b.before[0] in whole;
    var c := NextComponent(items, visible, b.axis, b.position, pending);
    ReportComplete(items, visible, b);
    if pending[0] in whole {
      ComponentsDisjoint(items, b.axis, pool, c, whole, pending[0]);
    } else {
      forall id | id in whole ensures id !in c {
        if id in c {
          ComponentsDisjoint(items, b.axis, pool, c, whole, id);
        }
      }
      ComponentsComplete(items, visible, Select(pending, Elems(pending) - c), b);
    }
  }

  /** The pending panes of a line are all the panes that touch it. */
  lemma PendingIsTouching(items: Items, visible: seq<string>, axis: Axis, position: int)
    requires Present(items, visible)
    ensures var before := Select(visible, Ending(items, visible, axis, position));
            var after := Select(visible, Starting(items, visible, axis, position));
            && Elems(Dedup(before + after)) == Touching(items, visible, axis, position)
            && Present(items, Dedup(before + after))
  {
    var before := Select(visible, Ending(items, visible, axis, position));
    var after := Select(visible, Starting(items, visible, axis, position));
    forall id ensures id in Dedup(before + after) <==> id in Touching(items, visible, axis, position) {
      assert id in before + after <==> id in before || id in after;
    }
  }

  lemma BoundariesAtExact(items: Items, visible: seq<string>, axis: Axis, position: int, b: Boundary)
    requires Distinct(visible) && Present(items, visible) && SizedAlong(items, visible, axis.Cross())
    ensures b in BoundariesAt(items, visible, axis, position)
            <==> IsSharedBoundary(items, visible, b) && b.axis == axis && b.position == position
  {
    hide IsSharedBoundary, IsComponent, ReportComponents, Select;
    PendingIsTouching(items, visible, axis, position);
    var pending := Dedup(Select(visible, Ending(items, visible, axis, position))
                         + Select(visible, Starting(items, visible, axis, position)));
    assert Closed(items, axis, Touching(items, visible, axis, position), Elems(pending));
    if b in BoundariesAt(items, visible, axis, position) {
      ComponentsSound(items, visible, axis, position, pending, b);
    }
    if IsSharedBoundary(items, visible, b) && b.axis == axis && b.position == position {
      BoundaryComponent(items, visible, b);
      ComponentInPool(items, axis, Touching(items, visible, axis, position), Elems(b.before) + Elems(b.after));
      ComponentsComplete(items, visible, pending, b);
    }
  }

  lemma {:induction false} BoundariesAtAllExact(items: Items, visible: seq<string>, axis: Axis,
                                                positions: seq<int>, b: Boundary)
    requires Distinct(visible) && Present(items, visible) && SizedAlong(items, visible, axis.Cross())
    ensures b in BoundariesAtAll(items, visible, axis, positions)
            <==> IsSharedBoundary(items, visible, b) && b.axis == axis && b.position in positions
  {
    hide IsSharedBoundary, BoundariesAt;
    if positions != [] {
      var init, last := positions[..|positions| - 1], positions[|positions| - 1];
      assert positions == init + [last];
      BoundariesAtAllExact(items, visible, axis, init, b);
      BoundariesAtExact(items, visible, axis, last, b);
    }
  }

  /**
   Soundness and completeness: in any layout whose visible panes have positive sizes, the
   derivation reports exactly the shared boundaries.
   */
  lemma DerivedExactly(items: Items, visible: seq<string>, b: Boundary)
    requires Distinct(visible) && Present(items, visible) && Positive(items, visible)
    ensures b in Derived(items, visible) <==> IsSharedBoundary(items, visible, b)
  {
    hide IsSharedBoundary, BoundariesAtAll;
    forall axis: Axis
      ensures b in AxisBoundaries(items, visible, axis)
              <==> IsSharedBoundary(items, visible, b) && b.axis == axis
    {
      BoundariesAtAllExact(items, visible, axis, Dedup(Ends(items, axis, visible)), b);
      if IsSharedBoundary(items, visible, b) && b.axis == axis {
        BoundaryComponent(items, visible, b);
        assert b.before[0] in Elems(b.before);
        ExtentMembers(items, axis, visible, b.before[0]);
      }
    }
    assert b.axis == X || b.axis == Y;
  }

  /** The tiled stretch of a boundary is positive, and each side alone determines it. */
  lemma BoundaryStretch(items: Items, visible: seq<string>, b: Boundary)
    requires Present(items, visible) && Positive(items, visible)
    requires IsSharedBoundary(items, visible, b)
    ensures Present(items, b.before) && Present(items, b.after)
    ensures b.start < b.end
    ensures b.before != [] && b.after != []
    ensures MinOf(Starts(items, b.axis.Cross(), b.before)) == b.start
    ensures MaxOf(Ends(items, b.axis.Cross(), b.before)) == b.end
    ensures MinOf(Starts(items, b.axis.Cross(), b.after)) == b.start
    ensures MaxOf(Ends(items, b.axis.Cross(), b.after)) == b.end
  {
    hide IsComponent, Tiles;
    BoundaryComponent(items, visible, b);
    forall id | id in b.before || id in b.after ensures id in visible {
      assert id in Elems(b.before) || id in Elems(b.after);
    }
    TiledStretch(items, b.axis.Cross(), b.before, b.start, b.end);
    TiledStretch(items, b.axis.Cross(), b.after, b.start, b.end);
  }

  /** An edge of a pane lies on at most one shared boundary per axis. */
  lemma OneBoundaryPerEdge(items: Items, visible: seq<string>, b: Boundary, d: Boundary, id: string)
    requires Distinct(visible) && Present(items, visible) && Positive(items, visible)
    requires b in Derived(items, visible) && d in Derived(items, visible)
    requires b.axis == d.axis
    requires (id in b.before && id in d.before) || (id in b.after && id in d.after)
    ensures b == d
  {
    hide IsComponent, Tiles;
    DerivedExactly(items, visible, b);
    DerivedExactly(items, visible, d);
    BoundaryComponent(items, visible, b);
    BoundaryComponent(items, visible, d);
    assert id in Elems(b.before) || id in Elems(b.after);
    assert b.position == d.position;
    ComponentsDisjoint(items, b.axis, Touching(items, visible, b.axis, b.position),
                       Elems(b.before) + Elems(b.after), Elems(d.before) + Elems(d.after), id);
    assert b.before == d.before && b.after == d.after;
    BoundaryStretch(items, visible, b);
    BoundaryStretch(items, visible, d);
  }
}

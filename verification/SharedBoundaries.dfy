/**
 Shared boundaries are not stored: they are derived from which panes touch a line, which of those
 face each other, and whether both sides fill the same stretch of the line without gap or overlap.
 */
module SharedBoundaries {
  import opened Wrappers
  import opened Sequences
  import opened LoggerGrid
  import opened PaneGraph
  import opened PaneIds

  datatype Boundary = Boundary(id: string, axis: Axis, position: int, start: int, end: int,
                               before: seq<string>, after: seq<string>)

  function AxisName(axis: Axis): string {
    if axis.X? then "x" else "y"
  }

  /** The visible panes that end on the line. */
  function Ending(items: Items, visible: seq<string>, axis: Axis, position: int): set<string>
    requires Present(items, visible)
  {
    set id | id in visible && items[id].End(axis) == position
  }

  /** The visible panes that start on the line. */
  function Starting(items: Items, visible: seq<string>, axis: Axis, position: int): set<string>
    requires Present(items, visible)
  {
    set id | id in visible && items[id].Pos(axis) == position
  }

  function Touching(items: Items, visible: seq<string>, axis: Axis, position: int): set<string>
    requires Present(items, visible)
  {
    Ending(items, visible, axis, position) + Starting(items, visible, axis, position)
  }

  // ----- Covering a stretch of the line -----

  function Starts(items: Items, axis: Axis, ids: seq<string>): seq<int>
    requires Present(items, ids)
  {
    seq(|ids|, i requires 0 <= i < |ids| => items[ids[i]].Pos(axis))
  }

  function Ends(items: Items, axis: Axis, ids: seq<string>): seq<int>
    requires Present(items, ids)
  {
    seq(|ids|, i requires 0 <= i < |ids| => items[ids[i]].End(axis))
  }

  function InsertByStart(items: Items, axis: Axis, id: string, ids: seq<string>): (r: seq<string>)
    requires id in items && Present(items, ids)
    ensures forall x :: x in r <==> x == id || x in ids
  {
    if ids == [] || items[id].Pos(axis) <= items[ids[0]].Pos(axis) then [id] + ids
    else [ids[0]] + InsertByStart(items, axis, id, ids[1..])
  }

  /** A stable sort by the panes' start along the line. */
  function SortByStart(items: Items, axis: Axis, ids: seq<string>): (r: seq<string>)
    requires Present(items, ids)
    ensures forall x :: x in r <==> x in ids
  {
    if ids == [] then [] else InsertByStart(items, axis, ids[0], SortByStart(items, axis, ids[1..]))
  }

  /** The cursor walk: each pane starts where the last one ended, and the last one ends at the end. */
  predicate Walks(items: Items, axis: Axis, ids: seq<string>, cursor: int, end: int)
    requires Present(items, ids)
  {
    if ids == [] then cursor == end
    else items[ids[0]].Pos(axis) == cursor
         && Walks(items, axis, ids[1..], cursor + items[ids[0]].Size(axis), end)
  }

  predicate Covers(items: Items, axis: Axis, ids: seq<string>, start: int, end: int)
    requires Present(items, ids)
  {
    Walks(items, axis, SortByStart(items, axis, ids), start, end)
  }

  method CoversStretch(items: Items, axis: Axis, ids: seq<string>, start: int, end: int) returns (ok: bool)
    requires Present(items, ids)
    ensures ok <==> Covers(items, axis, ids, start, end)
  {
    var sorted := SortByStart(items, axis, ids);
    var cursor := start;
    for i := 0 to |sorted|
      invariant Covers(items, axis, ids, start, end) <==> Walks(items, axis, sorted[i..], cursor, end)
    {
      var rect := items[sorted[i]];
      assert sorted[i..][1..] == sorted[i + 1..];
      if rect.Pos(axis) != cursor {
        return false;
      }
      cursor := cursor + rect.Size(axis);
    }
    return cursor == end;
  }

  // ----- The derivation -----

  function BoundaryOf(items: Items, axis: Axis, position: int, left: seq<string>, right: seq<string>): Boundary
    requires Present(items, left + right) && left + right != []
  {
    Boundary(BoundaryId(AxisName(axis), left, right), axis, position,
             MinOf(Starts(items, axis.Cross(), left + right)),
             MaxOf(Ends(items, axis.Cross(), left + right)),
             left, right)
  }

  /** One component gives one boundary if both sides are non-empty and fill its whole extent. */
  function ReportComponent(items: Items, axis: Axis, position: int, left: seq<string>, right: seq<string>)
    : seq<Boundary>
    requires Present(items, left + right)
  {
    if left == [] || right == [] then []
    else
      var b := BoundaryOf(items, axis, position, left, right);
      assert forall id :: id in left || id in right ==> id in left + right;
      if Covers(items, axis.Cross(), left, b.start, b.end) && Covers(items, axis.Cross(), right, b.start, b.end)
      then [b] else []
  }

  lemma SelectShorter(pending: seq<string>, c: set<string>)
    requires pending != [] && pending[0] in c
    ensures |Select(pending, Elems(pending) - c)| < |pending|
  {
  }

  /** The boundaries of the pending panes' components, first pending pane first. */
  ghost function ReportComponents(items: Items, axis: Axis, position: int, before: seq<string>, after: seq<string>,
                                  pending: seq<string>): seq<Boundary>
    requires Present(items, before) && Present(items, after) && Present(items, pending)
    decreases |pending|
  {
    if pending == [] then []
    else
      var c := ComponentOf(items, axis, Elems(pending), pending[0]);
      assert pending[0] in c by { LinkedToSelf(items, axis, Elems(pending), pending[0]); }
      SelectShorter(pending, c);
      ReportComponent(items, axis, position, Select(before, c), Select(after, c))
      + ReportComponents(items, axis, position, before, after, Select(pending, Elems(pending) - c))
  }

  ghost function BoundariesAt(items: Items, visible: seq<string>, axis: Axis, position: int): seq<Boundary>
    requires Present(items, visible)
  {
    var before := Select(visible, Ending(items, visible, axis, position));
    var after := Select(visible, Starting(items, visible, axis, position));
    ReportComponents(items, axis, position, before, after, Dedup(before + after))
  }

  ghost function BoundariesAtAll(items: Items, visible: seq<string>, axis: Axis, positions: seq<int>): seq<Boundary>
    requires Present(items, visible)
  {
    if positions == [] then []
    else BoundariesAtAll(items, visible, axis, positions[..|positions| - 1])
         + BoundariesAt(items, visible, axis, positions[|positions| - 1])
  }

  ghost function AxisBoundaries(items: Items, visible: seq<string>, axis: Axis): seq<Boundary>
    requires Present(items, visible)
  {
    BoundariesAtAll(items, visible, axis, Dedup(Ends(items, axis, visible)))
  }

  /** Every derived boundary, in the order the derivation reports them. */
  ghost function Derived(items: Items, visible: seq<string>): seq<Boundary>
    requires Present(items, visible)
  {
    AxisBoundaries(items, visible, X) + AxisBoundaries(items, visible, Y)
  }

  method ReportFound(items: Items, axis: Axis, position: int, component: seq<string>,
                     left: seq<string>, right: seq<string>) returns (found: seq<Boundary>)
    requires Present(items, component) && component != []
    requires forall id :: id in component <==> id in left + right
    ensures Present(items, left + right)
    ensures found == ReportComponent(items, axis, position, left, right)
  {
    SameExtent(items, axis.Cross(), component, left + right);
    if left == [] || right == [] {
      return [];
    }
    var start := MinOf(Starts(items, axis.Cross(), component));
    var end := MaxOf(Ends(items, axis.Cross(), component));
    assert forall id :: id in left || id in right ==> id in left + right;
    var coversLeft := CoversStretch(items, axis.Cross(), left, start, end);
    var coversRight := CoversStretch(items, axis.Cross(), right, start, end);
    if !coversLeft || !coversRight {
      return [];
    }
    return [Boundary(BoundaryId(AxisName(axis), left, right), axis, position, start, end, left, right)];
  }

  /** One turn of the pending loop: takes a component out and reports it if it is a boundary. */
  method ReportNext(items: Items, axis: Axis, position: int, before: seq<string>, after: seq<string>,
                    pending: seq<string>) returns (found: seq<Boundary>, rest: seq<string>)
    requires Present(items, before) && Present(items, after) && Present(items, pending)
    requires pending != [] && Distinct(pending)
    requires Elems(pending) <= Elems(before + after)
    ensures |rest| < |pending| && Distinct(rest) && Elems(rest) <= Elems(pending) && Present(items, rest)
    ensures found + ReportComponents(items, axis, position, before, after, rest)
         == ReportComponents(items, axis, position, before, after, pending)
  {
    ghost var c := ComponentOf(items, axis, Elems(pending), pending[0]);
    LinkedToSelf(items, axis, Elems(pending), pending[0]);
    SelectShorter(pending, c);
    SelectDistinct(pending, Elems(pending) - c);
    var component;
    component, rest := GrowComponent(items, axis, pending);
    ComponentSides(before, after, pending, component);
    found := ReportFound(items, axis, position, component,
                         Select(before, Elems(component)), Select(after, Elems(component)));
  }

  method ReportAll(items: Items, axis: Axis, position: int, before: seq<string>, after: seq<string>)
    returns (result: seq<Boundary>)
    requires Present(items, before) && Present(items, after)
    ensures result == ReportComponents(items, axis, position, before, after, Dedup(before + after))
  {
    hide ReportComponents;
    result := [];
    var pending := Dedup(before + after);
    DedupDistinct(before + after);
    ghost var all := ReportComponents(items, axis, position, before, after, pending);
    assert result + all == all;
    while pending != []
      invariant Distinct(pending) && Present(items, pending)
      invariant Elems(pending) <= Elems(before + after)
      invariant result + ReportComponents(items, axis, position, before, after, pending) == all
      decreases |pending|
    {
      var found, rest := ReportNext(items, axis, position, before, after, pending);
      ghost var left := ReportComponents(items, axis, position, before, after, rest);
      assert (result + found) + left == result + (found + left);
      result, pending := result + found, rest;
    }
    NothingPending(items, axis, position, before, after);
  }

  lemma NothingPending(items: Items, axis: Axis, position: int, before: seq<string>, after: seq<string>)
    requires Present(items, before) && Present(items, after)
    ensures ReportComponents(items, axis, position, before, after, []) == []
  {
  }

  method DeriveBoundariesAt(items: Items, visible: seq<string>, axis: Axis, position: int)
    returns (result: seq<Boundary>)
    requires Present(items, visible)
    ensures result == BoundariesAt(items, visible, axis, position)
  {
    var before := Select(visible, Ending(items, visible, axis, position));
    var after := Select(visible, Starting(items, visible, axis, position));
    result := ReportAll(items, axis, position, before, after);
  }

  lemma ComponentSides(before: seq<string>, after: seq<string>, pending: seq<string>, component: seq<string>)
    requires Elems(component) <= Elems(pending) <= Elems(before + after)
    ensures forall id :: id in component
              <==> id in Select(before, Elems(component)) + Select(after, Elems(component))
  {
    forall id | id in component
      ensures id in Select(before, Elems(component)) + Select(after, Elems(component))
    {
      assert id in Elems(component);
      assert id in before + after;
    }
  }

  /** The extent of a set of panes does not depend on the order they are listed in. */
  lemma SameExtent(items: Items, axis: Axis, a: seq<string>, b: seq<string>)
    requires Present(items, a) && a != []
    requires forall id :: id in a <==> id in b
    ensures Present(items, b) && b != []
    ensures MinOf(Starts(items, axis, a)) == MinOf(Starts(items, axis, b))
    ensures MaxOf(Ends(items, axis, a)) == MaxOf(Ends(items, axis, b))
  {
    assert a[0] in a && a[0] in b;
    assert Present(items, b) && b != [];
    var first := StartFrom(items, axis, a, MinOf(Starts(items, axis, a)));
    var last := EndFrom(items, axis, a, MaxOf(Ends(items, axis, a)));
    forall id | id in b
      ensures items[first].Pos(axis) <= items[id].Pos(axis) && items[id].End(axis) <= items[last].End(axis)
    {
      ExtentMembers(items, axis, a, id);
    }
    ExtentIs(items, axis, b, first, last);
  }

  /** The least start and the greatest end, recognised by the panes that attain them. */
  lemma ExtentIs(items: Items, axis: Axis, ids: seq<string>, first: string, last: string)
    requires Present(items, ids) && first in ids && last in ids
    requires forall id :: id in ids ==>
               items[first].Pos(axis) <= items[id].Pos(axis) && items[id].End(axis) <= items[last].End(axis)
    ensures MinOf(Starts(items, axis, ids)) == items[first].Pos(axis)
    ensures MaxOf(Ends(items, axis, ids)) == items[last].End(axis)
  {
    ExtentMembers(items, axis, ids, first);
    ExtentMembers(items, axis, ids, last);
    var f := StartFrom(items, axis, ids, MinOf(Starts(items, axis, ids)));
    var l := EndFrom(items, axis, ids, MaxOf(Ends(items, axis, ids)));
  }

  lemma ExtentMembers(items: Items, axis: Axis, ids: seq<string>, id: string)
    requires Present(items, ids) && id in ids
    ensures items[id].Pos(axis) in Starts(items, axis, ids)
    ensures items[id].End(axis) in Ends(items, axis, ids)
  {
    var i :| 0 <= i < |ids| && ids[i] == id;
    assert Starts(items, axis, ids)[i] == items[id].Pos(axis);
    assert Ends(items, axis, ids)[i] == items[id].End(axis);
  }

  lemma StartFrom(items: Items, axis: Axis, ids: seq<string>, v: int) returns (id: string)
    requires Present(items, ids) && v in Starts(items, axis, ids)
    ensures id in ids && items[id].Pos(axis) == v
  {
    var i :| 0 <= i < |ids| && Starts(items, axis, ids)[i] == v;
    id := ids[i];
  }

  lemma EndFrom(items: Items, axis: Axis, ids: seq<string>, v: int) returns (id: string)
    requires Present(items, ids) && v in Ends(items, axis, ids)
    ensures id in ids && items[id].End(axis) == v
  {
    var i :| 0 <= i < |ids| && Ends(items, axis, ids)[i] == v;
    id := ids[i];
  }

  method DeriveAlong(items: Items, visible: seq<string>, axis: Axis) returns (result: seq<Boundary>)
    requires Present(items, visible)
    ensures result == AxisBoundaries(items, visible, axis)
  {
    hide BoundariesAt;
    result := [];
    var positions := Dedup(Ends(items, axis, visible));
    for i := 0 to |positions|
      invariant result == BoundariesAtAll(items, visible, axis, positions[..i])
    {
      var found := DeriveBoundariesAt(items, visible, axis, positions[i]);
      assert positions[..i + 1][..i] == positions[..i];
      result := result + found;
    }
    assert positions[..|positions|] == positions;
  }

  method DeriveSharedBoundaries(layout: Layout, visible: seq<string>) returns (result: seq<Boundary>)
    requires Present(layout.items, visible)
    ensures result == Derived(layout.items, visible)
  {
    hide AxisBoundaries;
    result := [];
    var axes := [X, Y];
    for a := 0 to 2
      invariant a == 0 ==> result == []
      invariant a == 1 ==> result == AxisBoundaries(layout.items, visible, X)
      invariant a == 2 ==> result == Derived(layout.items, visible)
    {
      var found := DeriveAlong(layout.items, visible, axes[a]);
      result := result + found;
    }
  }
}

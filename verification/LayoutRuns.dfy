/**
 Whole runs of dashboard edits: any sequence of splitter drags, docks and drops, with the outcome of
 each (or the unchanged layout, when an edit is refused) as the start of the next.
 */
module LayoutRuns {
  import opened Wrappers
  import opened Sequences
  import opened LoggerGrid
  import opened GridSearch
  import opened SharedBoundaries
  import opened Splitters
  import opened ResizeFacts
  import opened DockFacts

  datatype Edit =
    | Drag(boundaryId: string, position: Number)
    | DockPane(moving: string, target: string, edge: Edge)
    | Drop(id: string, requested: Point, previous: Point)

  datatype Dashboard = Dashboard(visible: seq<string>, minimums: Minimums, columns: int, rows: int)

  ghost predicate InGrid(items: Items, d: Dashboard)
    requires Present(items, d.visible)
  {
    forall id :: id in d.visible ==> Within(items[id], d.columns, d.rows)
  }

  /** Collision-free, every visible pane inside the grid and at or above its minimum. */
  ghost predicate Good(layout: Layout, d: Dashboard) {
    && Standing(layout.items, d.visible, d.minimums)
    && AboveMinimums(layout.items, d.visible, d.minimums)
    && InGrid(layout.items, d)
  }

  /** The bounds a drop is made with: the positions at which the pane lies inside the grid. */
  function DropBounds(layout: Layout, d: Dashboard, id: string): Bounds {
    if id in layout.items
    then Bounds(d.columns - layout.items[id].w, d.rows - layout.items[id].h)
    else Bounds(0, 0)
  }

  /** What one edit hands out, if anything. */
  ghost function Outcome(layout: Layout, d: Dashboard, edit: Edit): Option<Layout>
    requires Good(layout, d)
  {
    match edit
    case Drag(boundaryId, position) => Resize(layout, boundaryId, position, d.minimums, d.visible)
    case DockPane(moving, target, edge) => Dock(layout, moving, target, edge, d.minimums, d.visible)
    case Drop(id, requested, previous) =>
      FindPosition(layout, id, requested, previous, DropBounds(layout, d, id), d.visible)
  }

  // ----- One edit -----

  /** A layout that covers no new cell stays inside the grid. */
  lemma NoNewCellsStaysInGrid(items: Items, items': Items, d: Dashboard)
    requires Present(items, d.visible) && InGrid(items, d)
    requires Present(items', d.visible) && Positive(items', d.visible)
    requires forall c :: Covered(items', d.visible, c) ==> Covered(items, d.visible, c)
    ensures InGrid(items', d)
  {
    forall id | id in d.visible ensures Within(items'[id], d.columns, d.rows) {
      var r := items'[id];
      var low, high := Cell(r.x, r.y), Cell(r.x + r.w - 1, r.y + r.h - 1);
      assert r.Has(low) && r.Has(high);
      assert Covered(items, d.visible, low) && Covered(items, d.visible, high);
    }
  }

  lemma DragKeepsGood(layout: Layout, d: Dashboard, boundaryId: string, position: Number)
    requires Good(layout, d)
    requires Resize(layout, boundaryId, position, d.minimums, d.visible).Some?
    ensures Good(Resize(layout, boundaryId, position, d.minimums, d.visible).value, d)
  {
    hide Resize, Derived, Covered, Disjoint;
    ResizeConserves(layout, boundaryId, position, d.minimums, d.visible);
    ResizeKeepsMinimums(layout, boundaryId, position, d.minimums, d.visible);
    NoNewCellsStaysInGrid(layout.items, Resize(layout, boundaryId, position, d.minimums, d.visible).value.items, d);
  }

  lemma DockKeepsGood(layout: Layout, d: Dashboard, moving: string, target: string, edge: Edge)
    requires Good(layout, d)
    requires Dock(layout, moving, target, edge, d.minimums, d.visible).Some?
    ensures Good(Dock(layout, moving, target, edge, d.minimums, d.visible).value, d)
  {
    hide Dock, Covered, Disjoint, FormerBoundary;
    DockConserves(layout, moving, target, edge, d.minimums, d.visible);
    DockKeepsMinimums(layout, moving, target, edge, d.minimums, d.visible);
    NoNewCellsStaysInGrid(layout.items, Dock(layout, moving, target, edge, d.minimums, d.visible).value.items, d);
  }

  /** A drop moves one pane, or exchanges two, and keeps all sizes. */
  lemma DropMovesOneOrTwo(layout: Layout, d: Dashboard, id: string, requested: Point, previous: Point)
    returns (other: string)
    requires Distinct(d.visible)
    requires FindPosition(layout, id, requested, previous, DropBounds(layout, d, id), d.visible).Some?
    ensures id in layout.items
    ensures other == id || (other in d.visible && other in layout.items)
    ensures var after := FindPosition(layout, id, requested, previous, DropBounds(layout, d, id), d.visible).value;
            && after.extra == layout.extra && after.items.Keys == layout.items.Keys
            && CollisionFree(after.items, d.visible)
            && (forall k :: k in layout.items && k != id && k != other ==> after.items[k] == layout.items[k])
            && (forall k :: k in layout.items ==>
                  after.items[k].w == layout.items[k].w && after.items[k].h == layout.items[k].h)
            && Within(after.items[id], d.columns, d.rows) && Within(after.items[other], d.columns, d.rows)
  {
    hide CollisionFree, SwapAt, Better, CoversHalf;
    var bounds := DropBounds(layout, d, id);
    var target := ClampPoint(requested, bounds);
    if SwapAt(layout, id, target, bounds, d.visible).Some? {
      var after := SwapAt(layout, id, target, bounds, d.visible).value;
      SwapExactly(layout, id, target, bounds, d.visible, after);
      var dragged := layout.items[id].(x := target.x, y := target.y);
      other :| && other in layout.items && OnlyCovered(layout.items, id, dragged, d.visible, other)
               && Traded(layout.items, after.items, id, other)
               && Within(after.items[id], bounds.maxX + layout.items[id].w, bounds.maxY + layout.items[id].h)
               && Within(after.items[other], bounds.maxX + layout.items[id].w, bounds.maxY + layout.items[id].h);
    } else {
      FindPositionIsOptimal(layout, id, requested, previous, bounds, d.visible);
      other := id;
    }
  }

  lemma DropKeepsGood(layout: Layout, d: Dashboard, id: string, requested: Point, previous: Point)
    requires Good(layout, d)
    requires FindPosition(layout, id, requested, previous, DropBounds(layout, d, id), d.visible).Some?
    ensures Good(FindPosition(layout, id, requested, previous, DropBounds(layout, d, id), d.visible).value, d)
  {
    hide FindPosition, CollisionFree;
    var other := DropMovesOneOrTwo(layout, d, id, requested, previous);
    var after := FindPosition(layout, id, requested, previous, DropBounds(layout, d, id), d.visible).value;
    CollisionFreeIsDisjoint(after.items, d.visible);
    forall k | k in d.visible
      ensures after.items[k].Positive() && Within(after.items[k], d.columns, d.rows)
    {
      assert layout.items[k].Positive();
    }
  }

  // ----- Runs -----

  lemma OutcomeIsGood(layout: Layout, d: Dashboard, edit: Edit)
    requires Good(layout, d)
    ensures Outcome(layout, d, edit).Some? ==> Good(Outcome(layout, d, edit).value, d)
  {
    hide Resize, Dock, FindPosition;
    if Outcome(layout, d, edit).Some? {
      match edit
      case Drag(boundaryId, position) => DragKeepsGood(layout, d, boundaryId, position);
      case DockPane(moving, target, edge) => DockKeepsGood(layout, d, moving, target, edge);
      case Drop(id, requested, previous) => DropKeepsGood(layout, d, id, requested, previous);
    }
  }

  /** A refused edit leaves the layout as it was. */
  ghost function Step(layout: Layout, d: Dashboard, edit: Edit): (after: Layout)
    requires Good(layout, d)
    ensures Good(after, d)
  {
    OutcomeIsGood(layout, d, edit);
    var outcome := Outcome(layout, d, edit);
    if outcome.None? then layout else outcome.value
  }

  /** The layout after a whole run of edits: good throughout, since every step keeps it good. */
  ghost function Run(layout: Layout, d: Dashboard, edits: seq<Edit>): (after: Layout)
    requires Good(layout, d)
    ensures Good(after, d)
    decreases |edits|
  {
    if edits == [] then layout else Run(Step(layout, d, edits[0]), d, edits[1..])
  }

  /** The edit names visible panes only. */
  ghost predicate OnVisible(d: Dashboard, edit: Edit) {
    edit.Drop? ==> edit.id in d.visible
  }

  lemma StepSparesHidden(layout: Layout, d: Dashboard, edit: Edit)
    requires Good(layout, d) && OnVisible(d, edit)
    ensures Step(layout, d, edit).items.Keys == layout.items.Keys
    ensures Step(layout, d, edit).extra == layout.extra
    ensures forall id :: id in layout.items && id !in d.visible ==> Step(layout, d, edit).items[id] == layout.items[id]
  {
    hide Resize, Dock, FindPosition, Derived, CollisionFree, Covered;
    if Outcome(layout, d, edit).Some? {
      match edit
      case Drag(boundaryId, position) =>
        ResizeConserves(layout, boundaryId, position, d.minimums, d.visible);
      case DockPane(moving, target, edge) =>
        DockConserves(layout, moving, target, edge, d.minimums, d.visible);
      case Drop(id, requested, previous) =>
        var other := DropMovesOneOrTwo(layout, d, id, requested, previous);
    }
  }

  /**
   Over every run of edits on visible panes, from a layout that is collision-free, inside the grid
   and at or above the minimums, all three facts persist and the hidden panes are never touched.
   */
  lemma {:induction false} RunKeepsGood(layout: Layout, d: Dashboard, edits: seq<Edit>)
    requires Good(layout, d)
    requires forall i :: 0 <= i < |edits| ==> OnVisible(d, edits[i])
    ensures var after := Run(layout, d, edits);
            && Good(after, d)
            && CollisionFree(after.items, d.visible)
            && after.extra == layout.extra && after.items.Keys == layout.items.Keys
            && (forall id :: id in layout.items && id !in d.visible ==> after.items[id] == layout.items[id])
    decreases |edits|
  {
    hide Step;
    if edits != [] {
      StepSparesHidden(layout, d, edits[0]);
      RunKeepsGood(Step(layout, d, edits[0]), d, edits[1..]);
    }
    CollisionFreeIsDisjoint(Run(layout, d, edits).items, d.visible);
  }

  /** A run of nothing but drags leaves the covered cells exactly as they were. */
  lemma {:induction false} DragsConserveCells(layout: Layout, d: Dashboard, edits: seq<Edit>, c: Cell)
    requires Good(layout, d)
    requires forall i :: 0 <= i < |edits| ==> edits[i].Drag?
    ensures Covered(Run(layout, d, edits).items, d.visible, c) <==> Covered(layout.items, d.visible, c)
    decreases |edits|
  {
    hide Resize, Derived, Covered, Disjoint;
    if edits != [] {
      var next := Step(layout, d, edits[0]);
      if Outcome(layout, d, edits[0]).Some? {
        ResizeConserves(layout, edits[0].boundaryId, edits[0].position, d.minimums, d.visible);
      }
      DragsConserveCells(next, d, edits[1..], c);
    }
  }

  /** On a good layout a drop of a visible pane always finds a place. */
  lemma DropSucceeds(layout: Layout, d: Dashboard, id: string, requested: Point, previous: Point)
    requires Good(layout, d) && id in d.visible
    ensures FindPosition(layout, id, requested, previous, DropBounds(layout, d, id), d.visible).Some?
  {
    hide FindPosition;
    CollisionFreeIsDisjoint(layout.items, d.visible);
    assert Within(layout.items[id], d.columns, d.rows);
    FindPositionSucceeds(layout, id, requested, previous, DropBounds(layout, d, id), d.visible);
  }
}

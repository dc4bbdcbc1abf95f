/**
 Where a dragged pane lands: an exchange when it is dropped on one other pane, otherwise the
 nearest free grid position.
 */
module GridSearch {
  import opened Wrappers
  import opened Sequences
  import opened LoggerGrid

  datatype Point = Point(x: real, y: real)

  function Clamp(value: real, maximum: int): int {
    Min(maximum, Max(0, Round(value)))
  }

  function ClampPoint(p: Point, bounds: Bounds): Cell {
    Cell(Clamp(p.x, bounds.maxX), Clamp(p.y, bounds.maxY))
  }

  /** The coordinate is the in-range integer nearest to the value, and of two the larger. */
  predicate NearestInRange(coordinate: int, value: real, maximum: int) {
    && 0 <= coordinate <= maximum
    && (value <= 0.0 ==> coordinate == 0)
    && (value >= maximum as real ==> coordinate == maximum)
    && (0.0 <= value <= maximum as real ==> coordinate as real - 0.5 <= value < coordinate as real + 0.5)
  }

  /** Clamping takes each coordinate of a point to the nearest in-bounds integer. */
  lemma ClampIsNearest(p: Point, bounds: Bounds)
    requires bounds.maxX >= 0 && bounds.maxY >= 0
    ensures NearestInRange(ClampPoint(p, bounds).x, p.x, bounds.maxX)
    ensures NearestInRange(ClampPoint(p, bounds).y, p.y, bounds.maxY)
  {
    var x, y := Round(p.x), Round(p.y);
  }

  /** The square of the straight-line distance. */
  function SquaredDistance(p: Cell, q: Cell): int {
    (p.x - q.x) * (p.x - q.x) + (p.y - q.y) * (p.y - q.y)
  }

  /** The comparator of positions.sort: the first non-zero difference decides. */
  function ComparePositions(target: Cell, prior: Cell, left: Cell, right: Cell): int {
    var d1 := SquaredDistance(left, target) - SquaredDistance(right, target);
    if d1 != 0 then d1 else
    var d2 := SquaredDistance(left, prior) - SquaredDistance(right, prior);
    if d2 != 0 then d2 else
    var d3 := Abs(left.y - target.y) - Abs(right.y - target.y);
    if d3 != 0 then d3 else
    var d4 := Abs(left.x - target.x) - Abs(right.x - target.x);
    if d4 != 0 then d4 else
    if left.y != right.y then left.y - right.y else left.x - right.x
  }

  // ----- The order the comparator induces -----

  /** How good a position is: smaller is better, earlier entries first. */
  function Rank(target: Cell, prior: Cell, p: Cell): seq<int> {
    [SquaredDistance(p, target), SquaredDistance(p, prior),
     Abs(p.y - target.y), Abs(p.x - target.x), p.y, p.x]
  }

  predicate LexLess(a: seq<int>, b: seq<int>)
    requires |a| == |b|
  {
    a != [] && (a[0] < b[0] || (a[0] == b[0] && LexLess(a[1..], b[1..])))
  }

  lemma {:induction false} LexLessTransitive(a: seq<int>, b: seq<int>, c: seq<int>)
    requires |a| == |b| == |c|
    requires LexLess(a, b) && LexLess(b, c)
    ensures LexLess(a, c)
  {
    if a[0] == b[0] == c[0] {
      LexLessTransitive(a[1..], b[1..], c[1..]);
    }
  }

  lemma {:induction false} LexLessTotal(a: seq<int>, b: seq<int>)
    requires |a| == |b|
    ensures LexLess(a, b) || LexLess(b, a) || a == b
    ensures !(LexLess(a, b) && LexLess(b, a))
    ensures a == b ==> !LexLess(a, b)
  {
    if a != [] {
      LexLessTotal(a[1..], b[1..]);
      assert a == [a[0]] + a[1..] && b == [b[0]] + b[1..];
    }
  }

  lemma LexLessUnfold(a: seq<int>, b: seq<int>)
    requires |a| == |b| == 6
    ensures LexLess(a, b) <==>
              || a[0] < b[0]
              || (a[0] == b[0] && (a[1] < b[1]
              || (a[1] == b[1] && (a[2] < b[2]
              || (a[2] == b[2] && (a[3] < b[3]
              || (a[3] == b[3] && (a[4] < b[4]
              || (a[4] == b[4] && a[5] < b[5])))))))))
  {
    var a1, b1 := a[1..], b[1..];
    var a2, b2 := a1[1..], b1[1..];
    var a3, b3 := a2[1..], b2[1..];
    var a4, b4 := a3[1..], b3[1..];
    var a5, b5 := a4[1..], b4[1..];
    assert LexLess(a5, b5) <==> a5[0] < b5[0];
    assert LexLess(a4, b4) <==> a4[0] < b4[0] || (a4[0] == b4[0] && LexLess(a5, b5));
    assert LexLess(a3, b3) <==> a3[0] < b3[0] || (a3[0] == b3[0] && LexLess(a4, b4));
    assert LexLess(a2, b2) <==> a2[0] < b2[0] || (a2[0] == b2[0] && LexLess(a3, b3));
  }

  /** The comparator is the lexicographic order of ranks, and ties only on equal positions. */
  lemma CompareIsRankOrder(target: Cell, prior: Cell, left: Cell, right: Cell)
    ensures ComparePositions(target, prior, left, right) < 0
            <==> LexLess(Rank(target, prior, left), Rank(target, prior, right))
    ensures ComparePositions(target, prior, left, right) == 0 <==> left == right
  {
    LexLessUnfold(Rank(target, prior, left), Rank(target, prior, right));
  }

  /** Position p comes strictly before q. */
  predicate Better(target: Cell, prior: Cell, p: Cell, q: Cell) {
    LexLess(Rank(target, prior, p), Rank(target, prior, q))
  }

  /** The straight-line distance from p is the shorter one. */
  predicate Nearer(p: Cell, q: Cell, to: Cell) {
    (p.x - to.x) * (p.x - to.x) + (p.y - to.y) * (p.y - to.y)
    < (q.x - to.x) * (q.x - to.x) + (q.y - to.y) * (q.y - to.y)
  }

  /** The value a lies strictly between b and the mirror image of b in c. */
  predicate Inside(a: int, b: int, c: int) {
    b < a < c + (c - b) || c + (c - b) < a < b
  }

  /** The order in full: nearer to the target, to the prior place, in rows, in columns; then upper, then left. */
  lemma BetterInFull(target: Cell, prior: Cell, p: Cell, q: Cell)
    ensures Better(target, prior, p, q) <==>
              || Nearer(p, q, target)
              || (!Nearer(q, p, target) && (Nearer(p, q, prior)
              || (!Nearer(q, p, prior) && (Inside(p.y, q.y, target.y)
              || (!Inside(q.y, p.y, target.y) && (Inside(p.x, q.x, target.x)
              || (!Inside(q.x, p.x, target.x) && (p.y < q.y
              || (p.y == q.y && p.x < q.x)))))))))
  {
    LexLessUnfold(Rank(target, prior, p), Rank(target, prior, q));
    AbsInside(p.y, q.y, target.y);
    AbsInside(q.y, p.y, target.y);
    AbsInside(p.x, q.x, target.x);
    AbsInside(q.x, p.x, target.x);
  }

  lemma AbsInside(a: int, b: int, c: int)
    ensures Abs(a - c) < Abs(b - c) <==> Inside(a, b, c)
  {
  }

  ghost predicate SortedPositions(target: Cell, prior: Cell, s: seq<Cell>) {
    forall i, j :: 0 <= i < j < |s| ==> !Better(target, prior, s[j], s[i])
  }

  /** Inserts a position behind every position that is not worse than it. */
  function InsertPosition(target: Cell, prior: Cell, p: Cell, s: seq<Cell>): seq<Cell> {
    if s == [] then [p]
    else if ComparePositions(target, prior, p, s[0]) < 0 then [p] + s
    else [s[0]] + InsertPosition(target, prior, p, s[1..])
  }

  lemma {:induction false} InsertKeepsSorted(target: Cell, prior: Cell, p: Cell, s: seq<Cell>)
    requires SortedPositions(target, prior, s)
    ensures SortedPositions(target, prior, InsertPosition(target, prior, p, s))
    ensures multiset(InsertPosition(target, prior, p, s)) == multiset(s) + multiset{p}
  {
    if s == [] {
    } else if ComparePositions(target, prior, p, s[0]) < 0 {
      CompareIsRankOrder(target, prior, p, s[0]);
      forall k | 0 <= k < |s| ensures !Better(target, prior, s[k], p) {
        if Better(target, prior, s[k], p) {
          LexLessTransitive(Rank(target, prior, s[k]), Rank(target, prior, p), Rank(target, prior, s[0]));
          LexLessTotal(Rank(target, prior, s[0]), Rank(target, prior, s[0]));
        }
      }
    } else {
      CompareIsRankOrder(target, prior, p, s[0]);
      InsertKeepsSorted(target, prior, p, s[1..]);
      var t := InsertPosition(target, prior, p, s[1..]);
      assert s == [s[0]] + s[1..];
      forall k | 0 <= k < |t| ensures !Better(target, prior, t[k], s[0]) {
        assert t[k] in multiset(t);
        assert t[k] in s[1..] || t[k] == p;
      }
    }
  }

  method SortPositions(target: Cell, prior: Cell, positions: seq<Cell>) returns (sorted: seq<Cell>)
    ensures SortedPositions(target, prior, sorted)
    ensures multiset(sorted) == multiset(positions)
  {
    sorted := [];
    for i := 0 to |positions|
      invariant SortedPositions(target, prior, sorted)
      invariant multiset(sorted) == multiset(positions[..i])
    {
      InsertKeepsSorted(target, prior, positions[i], sorted);
      sorted := InsertPosition(target, prior, positions[i], sorted);
      assert positions[..i + 1] == positions[..i] + [positions[i]];
    }
    assert positions[..|positions|] == positions;
  }

  // ----- The search -----

  predicate InBounds(p: Cell, bounds: Bounds) {
    0 <= p.x <= bounds.maxX && 0 <= p.y <= bounds.maxY
  }

  function MovedTo(layout: Layout, id: string, p: Cell): Layout
    requires id in layout.items
  {
    layout.(items := layout.items[id := layout.items[id].(x := p.x, y := p.y)])
  }

  /** The pane can stand at this in-bounds position without touching another visible pane. */
  ghost predicate FreePosition(layout: Layout, id: string, bounds: Bounds, visible: seq<string>, p: Cell)
    requires id in layout.items
  {
    InBounds(p, bounds) && CollisionFree(MovedTo(layout, id, p).items, visible)
  }

  /** A free position that beats every other free position. */
  ghost predicate NearestFree(layout: Layout, id: string, target: Cell, prior: Cell, bounds: Bounds,
                              visible: seq<string>, p: Cell)
    requires id in layout.items
  {
    && FreePosition(layout, id, bounds, visible, p)
    && forall q :: FreePosition(layout, id, bounds, visible, q) && q != p ==> Better(target, prior, p, q)
  }

  /** At most one position is nearest. */
  lemma NearestFreeIsUnique(layout: Layout, id: string, target: Cell, prior: Cell, bounds: Bounds,
                            visible: seq<string>, p: Cell, q: Cell)
    requires id in layout.items
    requires NearestFree(layout, id, target, prior, bounds, visible, p)
    requires NearestFree(layout, id, target, prior, bounds, visible, q)
    ensures p == q
  {
    LexLessTotal(Rank(target, prior, p), Rank(target, prior, q));
  }

  /** Where the pane goes, said without the search: an exchange, else the nearest free position. */
  ghost function FindPosition(layout: Layout, id: string, requested: Point, previous: Point, bounds: Bounds,
                              visible: seq<string>): Option<Layout>
  {
    if id !in layout.items then None
    else
      var target, prior := ClampPoint(requested, bounds), ClampPoint(previous, bounds);
      var swapped := SwapAt(layout, id, target, bounds, visible);
      if swapped.Some? then swapped
      else if exists p :: NearestFree(layout, id, target, prior, bounds, visible, p) then
        var p :| NearestFree(layout, id, target, prior, bounds, visible, p);
        Some(MovedTo(layout, id, p))
      else None
  }

  method AllPositions(bounds: Bounds) returns (positions: seq<Cell>)
    ensures forall p :: p in positions <==> InBounds(p, bounds)
  {
    positions := [];
    var y := 0;
    while y <= bounds.maxY
      invariant 0 <= y
      invariant forall p :: p in positions <==> InBounds(p, bounds) && p.y < y
    {
      var x := 0;
      while x <= bounds.maxX
        invariant 0 <= x
        invariant forall p :: p in positions <==> InBounds(p, bounds) && (p.y < y || (p.y == y && p.x < x))
      {
        positions := positions + [Cell(x, y)];
        x := x + 1;
      }
      y := y + 1;
    }
  }

  method FindLoggerGridItemPosition(layout: Layout, id: string, requested: Point, previous: Point,
                                    bounds: Bounds, visible: seq<string>) returns (r: Option<Layout>)
    ensures r == FindPosition(layout, id, requested, previous, bounds, visible)
  {
    hide SwapAt, CollisionFree, Better;
    if id !in layout.items {
      return None;
    }
    var item := layout.items[id];
    var target, prior := ClampPoint(requested, bounds), ClampPoint(previous, bounds);
    var swapped := SwapLoggerGridItemAtPosition(layout, id, target, bounds, visible);
    if swapped.Some? {
      return swapped;
    }
    var positions := AllPositions(bounds);
    var sorted := SortPositions(target, prior, positions);
    assert forall p :: p in sorted <==> p in multiset(sorted);
    assert forall p :: p in positions <==> p in multiset(positions);
    for i := 0 to |sorted|
      invariant forall k :: 0 <= k < i ==> !FreePosition(layout, id, bounds, visible, sorted[k])
    {
      var candidate := ReplaceLoggerGridItem(layout, id, item.(x := sorted[i].x, y := sorted[i].y), visible);
      if candidate.Some? {
        FirstFreeIsNearest(layout, id, target, prior, bounds, visible, sorted, i);
        forall q | NearestFree(layout, id, target, prior, bounds, visible, q) ensures q == sorted[i] {
          NearestFreeIsUnique(layout, id, target, prior, bounds, visible, q, sorted[i]);
        }
        return candidate;
      }
    }
    return None;
  }

  /** Scanning a sorted list of all positions, the first free one is the nearest. */
  lemma FirstFreeIsNearest(layout: Layout, id: string, target: Cell, prior: Cell, bounds: Bounds,
                           visible: seq<string>, sorted: seq<Cell>, i: nat)
    requires id in layout.items && i < |sorted|
    requires SortedPositions(target, prior, sorted)
    requires forall p :: p in sorted <==> InBounds(p, bounds)
    requires forall k :: 0 <= k < i ==> !FreePosition(layout, id, bounds, visible, sorted[k])
    requires FreePosition(layout, id, bounds, visible, sorted[i])
    ensures NearestFree(layout, id, target, prior, bounds, visible, sorted[i])
  {
    forall q | FreePosition(layout, id, bounds, visible, q) && q != sorted[i]
      ensures Better(target, prior, sorted[i], q)
    {
      assert q in sorted;
      var k :| 0 <= k < |sorted| && sorted[k] == q;
      assert !Better(target, prior, q, sorted[i]);
      LexLessTotal(Rank(target, prior, q), Rank(target, prior, sorted[i]));
      assert Rank(target, prior, q)[4] == q.y && Rank(target, prior, q)[5] == q.x;
      assert Rank(target, prior, sorted[i])[4] == sorted[i].y && Rank(target, prior, sorted[i])[5] == sorted[i].x;
    }
  }

  // ----- What the search guarantees -----

  /** A set of candidates drawn from a finite list has a best element. */
  lemma {:induction false} BestExists(layout: Layout, id: string, target: Cell, prior: Cell, bounds: Bounds,
                                      visible: seq<string>, all: seq<Cell>)
    returns (best: Cell)
    requires id in layout.items
    requires exists p :: p in all && FreePosition(layout, id, bounds, visible, p)
    ensures best in all && FreePosition(layout, id, bounds, visible, best)
    ensures forall q :: q in all && FreePosition(layout, id, bounds, visible, q) && q != best
              ==> Better(target, prior, best, q)
  {
    var rest := all[1..];
    assert all == [all[0]] + rest;
    if exists p :: p in rest && FreePosition(layout, id, bounds, visible, p) {
      best := BestExists(layout, id, target, prior, bounds, visible, rest);
      if FreePosition(layout, id, bounds, visible, all[0]) && Better(target, prior, all[0], best) {
        forall q | q in rest && FreePosition(layout, id, bounds, visible, q) && q != best
          ensures Better(target, prior, all[0], q)
        {
          LexLessTransitive(Rank(target, prior, all[0]), Rank(target, prior, best), Rank(target, prior, q));
        }
        best := all[0];
      } else {
        LexLessTotal(Rank(target, prior, all[0]), Rank(target, prior, best));
        CompareIsRankOrder(target, prior, all[0], best);
        CompareIsRankOrder(target, prior, best, all[0]);
      }
    } else {
      best := all[0];
    }
  }

  lemma {:induction false} RowExists(maxX: int, y: int) returns (row: seq<Cell>)
    ensures forall p: Cell :: p in row <==> 0 <= p.x <= maxX && p.y == y
  {
    if maxX < 0 {
      row := [];
    } else {
      row := RowExists(maxX - 1, y);
      row := row + [Cell(maxX, y)];
    }
  }

  lemma {:induction false} GridExists(maxX: int, maxY: int) returns (all: seq<Cell>)
    ensures forall p :: p in all <==> InBounds(p, Bounds(maxX, maxY))
  {
    if maxY < 0 {
      all := [];
    } else {
      all := GridExists(maxX, maxY - 1);
      var row := RowExists(maxX, maxY);
      all := all + row;
    }
  }

  /**
   When no exchange applies, the pane lands on the unique best free position, and the search
   fails exactly when no position is free.
   */
  lemma FindPositionIsOptimal(layout: Layout, id: string, requested: Point, previous: Point, bounds: Bounds,
                              visible: seq<string>)
    requires id in layout.items
    requires SwapAt(layout, id, ClampPoint(requested, bounds), bounds, visible).None?
    ensures var target, prior := ClampPoint(requested, bounds), ClampPoint(previous, bounds);
            var r := FindPosition(layout, id, requested, previous, bounds, visible);
            && (r.None? <==> forall p :: !FreePosition(layout, id, bounds, visible, p))
            && (r.Some? ==> exists p :: && NearestFree(layout, id, target, prior, bounds, visible, p)
                                        && r.value == MovedTo(layout, id, p))
  {
    var target, prior := ClampPoint(requested, bounds), ClampPoint(previous, bounds);
    if p :| FreePosition(layout, id, bounds, visible, p) {
      var all := GridExists(bounds.maxX, bounds.maxY);
      assert bounds == Bounds(bounds.maxX, bounds.maxY);
      assert p in all;
      var best := BestExists(layout, id, target, prior, bounds, visible, all);
      assert NearestFree(layout, id, target, prior, bounds, visible, best);
    }
  }

  /** A pane that stands legally in bounds can always be put somewhere. */
  lemma FindPositionSucceeds(layout: Layout, id: string, requested: Point, previous: Point, bounds: Bounds,
                             visible: seq<string>)
    requires id in layout.items
    requires CollisionFree(layout.items, visible)
    requires InBounds(Cell(layout.items[id].x, layout.items[id].y), bounds)
    ensures FindPosition(layout, id, requested, previous, bounds, visible).Some?
  {
    if SwapAt(layout, id, ClampPoint(requested, bounds), bounds, visible).None? {
      var here := Cell(layout.items[id].x, layout.items[id].y);
      assert layout.items[id := layout.items[id].(x := here.x, y := here.y)] == layout.items;
      assert FreePosition(layout, id, bounds, visible, here);
      FindPositionIsOptimal(layout, id, requested, previous, bounds, visible);
    }
  }

  /**
   Without a swap, a pane dropped where the nearest in-bounds cell is free stands on that cell, and
   nothing else has changed.
   */
  lemma FreeDropStandsThere(layout: Layout, id: string, requested: Point, previous: Point, bounds: Bounds,
                            visible: seq<string>, here: Cell)
    requires id in layout.items
    requires NearestInRange(here.x, requested.x, bounds.maxX) && NearestInRange(here.y, requested.y, bounds.maxY)
    requires SwapAt(layout, id, here, bounds, visible).None?
    requires var r := layout.items[id];
             CollisionFree(layout.items[id := Rect(here.x, here.y, r.w, r.h)], visible)
    ensures var r := layout.items[id];
            FindPosition(layout, id, requested, previous, bounds, visible)
            == Some(layout.(items := layout.items[id := Rect(here.x, here.y, r.w, r.h)]))
  {
    hide CollisionFree, SwapAt;
    var target, prior := ClampPoint(requested, bounds), ClampPoint(previous, bounds);
    ClampIsNearest(requested, bounds);
    assert target == here;
    var r := layout.items[id];
    assert r.(x := here.x, y := here.y) == Rect(here.x, here.y, r.w, r.h);
    assert FreePosition(layout, id, bounds, visible, here);
    FindPositionIsOptimal(layout, id, requested, previous, bounds, visible);
    var p :| NearestFree(layout, id, target, prior, bounds, visible, p)
             && FindPosition(layout, id, requested, previous, bounds, visible).value == MovedTo(layout, id, p);
    if p != here {
      BetterInFull(target, prior, p, here);
      NearestToItself(p, here);
      NearestToItself(here, here);
    }
  }

  /** The cell itself is nearer to it than any other. */
  lemma NearestToItself(p: Cell, here: Cell)
    ensures SquaredDistance(p, here) >= 0
    ensures SquaredDistance(p, here) <= 0 <==> p == here
  {
    var dx, dy := p.x - here.x, p.y - here.y;
    assert dx * dx >= 0 && dy * dy >= 0;
    assert dx != 0 ==> dx * dx > 0;
    assert dy != 0 ==> dy * dy > 0;
  }
}

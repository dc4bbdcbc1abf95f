/**
 The order in which shared boundaries are reported: along x before along y, then by which position is
 met first among the visible panes' ends, then by which pane before the line is listed first.
 */
module DerivedOrder {
  import opened Wrappers
  import opened Sequences
  import opened LoggerGrid
  import opened PaneGraph
  import opened SharedBoundaries
  import opened BoundaryFacts

  /** Going through the list, a is met, and b is not met any sooner. */
  ghost predicate ComesFirst<T(!new)>(s: seq<T>, a: T, b: T) {
    exists i :: 0 <= i < |s| && s[i] == a && forall k :: 0 <= k <= i ==> s[k] != b
  }

  /** The boundary b is reported before d. */
  ghost predicate Precedes(items: Items, visible: seq<string>, b: Boundary, d: Boundary)
    requires Present(items, visible) && b.before != [] && d.before != []
  {
    || (b.axis.X? && d.axis.Y?)
    || (b.axis == d.axis
        && (|| ComesFirst(Ends(items, b.axis, visible), b.position, d.position)
            || (b.position == d.position && ComesFirst(visible, b.before[0], d.before[0]))))
  }

  // ----- Lists -----

  lemma NotBothFirst<T(!new)>(s: seq<T>, a: T, b: T)
    ensures !(ComesFirst(s, a, b) && ComesFirst(s, b, a))
  {
  }

  lemma ComesFirstLonger<T(!new)>(s: seq<T>, t: seq<T>, a: T, b: T)
    requires ComesFirst(s, a, b)
    ensures ComesFirst(s + t, a, b)
  {
    var i :| 0 <= i < |s| && s[i] == a && forall k :: 0 <= k <= i ==> s[k] != b;
    assert (s + t)[i] == a;
  }

  lemma ComesFirstBehind<T(!new)>(head: T, s: seq<T>, a: T, b: T)
    requires head != b && ComesFirst(s, a, b)
    ensures ComesFirst([head] + s, a, b)
  {
    var i :| 0 <= i < |s| && s[i] == a && forall k :: 0 <= k <= i ==> s[k] != b;
    assert ([head] + s)[i + 1] == a;
  }

  lemma MemberComesFirst<T(!new)>(s: seq<T>, a: T, b: T)
    requires a in s && b !in s
    ensures ComesFirst(s, a, b)
  {
    var i :| 0 <= i < |s| && s[i] == a;
  }

  /** Removing repetitions keeps the order of first appearance. */
  lemma {:induction false} DedupComesFirst<T(!new)>(s: seq<T>, i: nat, j: nat)
    requires i < j < |Dedup(s)|
    ensures ComesFirst(s, Dedup(s)[i], Dedup(s)[j])
  {
    var init, last := s[..|s| - 1], s[|s| - 1];
    assert s == init + [last];
    var d := Dedup(init);
    if j < |d| {
      DedupComesFirst(init, i, j);
    } else {
      assert d[i] in d;
      MemberComesFirst(init, d[i], last);
    }
    ComesFirstLonger(init, [last], Dedup(s)[i], Dedup(s)[j]);
  }

  /** Filtering keeps the order. */
  lemma {:induction false} SelectComesFirst<T(!new)>(s: seq<T>, keep: set<T>, a: T, b: T)
    requires b in keep && ComesFirst(Select(s, keep), a, b)
    ensures ComesFirst(s, a, b)
  {
    var r := Select(s, keep);
    var i :| 0 <= i < |r| && r[i] == a && forall k :: 0 <= k <= i ==> r[k] != b;
    assert r[0] != b;
    var rest := Select(s[1..], keep);
    assert s == [s[0]] + s[1..];
    if s[0] !in keep || s[0] != a {
      if s[0] in keep {
        assert r == [s[0]] + rest;
        assert rest[i - 1] == a;
        assert forall k :: 0 <= k <= i - 1 ==> rest[k] == r[k + 1];
      }
      assert ComesFirst(rest, a, b);
      SelectComesFirst(s[1..], keep, a, b);
      ComesFirstBehind(s[0], s[1..], a, b);
    }
  }

  /** The first element that passes a filter is the first of the list that does. */
  lemma {:induction false} SelectHead<T(!new)>(s: seq<T>, keep: set<T>) returns (i: nat)
    requires Select(s, keep) != []
    ensures i < |s| && s[i] == Select(s, keep)[0] && forall l :: 0 <= l < i ==> s[l] !in keep
  {
    if s[0] in keep {
      i := 0;
    } else {
      i := SelectHead(s[1..], keep);
      i := i + 1;
    }
  }

  /** If h comes before x and is kept where x is not, then the first element kept comes before x. */
  lemma HeadComesFirst<T(!new)>(s: seq<T>, keep: set<T>, h: T, x: T)
    requires ComesFirst(s, h, x) && h in keep
    ensures Select(s, keep) != [] && ComesFirst(s, Select(s, keep)[0], x)
  {
    var k :| 0 <= k < |s| && s[k] == h && forall l :: 0 <= l <= k ==> s[l] != x;
    assert h in Select(s, keep);
    var i := SelectHead(s, keep);
    assert i <= k;
  }

  /** Two elements of a filtered list stand in the list in the same order. */
  lemma {:induction false} SelectIndices<T(!new)>(s: seq<T>, keep: set<T>, k: nat, l: nat) returns (k': nat, l': nat)
    requires k < l < |Select(s, keep)|
    ensures k' < l' < |s| && s[k'] == Select(s, keep)[k] && s[l'] == Select(s, keep)[l]
  {
    if s[0] !in keep {
      k', l' := SelectIndices(s[1..], keep, k, l);
      k', l' := k' + 1, l' + 1;
    } else if k > 0 {
      k', l' := SelectIndices(s[1..], keep, k - 1, l - 1);
      k', l' := k' + 1, l' + 1;
    } else {
      var x := Select(s[1..], keep)[l - 1];
      assert x in Select(s[1..], keep);
      var i :| 0 <= i < |s[1..]| && s[1..][i] == x;
      k', l' := 0, i + 1;
    }
  }

  // ----- One line -----

  /** The pending panes before the line are listed first and in order. */
  ghost predicate InOrder(before: seq<string>, pending: seq<string>) {
    forall k, l :: 0 <= k < l < |pending| && pending[l] in before ==> ComesFirst(before, pending[k], pending[l])
  }

  lemma PendingInOrder(before: seq<string>, after: seq<string>)
    ensures InOrder(before, Dedup(before + after))
  {
    var pending := Dedup(before + after);
    forall k, l | 0 <= k < l < |pending| && pending[l] in before ensures ComesFirst(before, pending[k], pending[l]) {
      DedupComesFirst(before + after, k, l);
      FirstOfTwo(before, after, pending[k], pending[l]);
    }
  }

  lemma FirstOfTwo(s: seq<string>, t: seq<string>, a: string, b: string)
    requires ComesFirst(s + t, a, b) && b in s
    ensures ComesFirst(s, a, b)
  {
    var i :| 0 <= i < |s + t| && (s + t)[i] == a && forall k :: 0 <= k <= i ==> (s + t)[k] != b;
    var j :| 0 <= j < |s| && s[j] == b;
    assert (s + t)[j] == b;
    assert i < j;
    assert forall k :: 0 <= k <= i ==> s[k] == (s + t)[k];
  }

  lemma SelectInOrder(before: seq<string>, pending: seq<string>, keep: set<string>)
    requires InOrder(before, pending)
    ensures InOrder(before, Select(pending, keep))
  {
    var r := Select(pending, keep);
    forall k, l | 0 <= k < l < |r| && r[l] in before ensures ComesFirst(before, r[k], r[l]) {
      var k', l' := SelectIndices(pending, keep, k, l);
    }
  }

  /** A reported boundary has pending panes before its line. */
  lemma {:induction false} ReportedWasPending(items: Items, axis: Axis, position: int, before: seq<string>,
                                              after: seq<string>, pending: seq<string>, d: Boundary)
    requires Present(items, before) && Present(items, after) && Present(items, pending)
    requires d in ReportComponents(items, axis, position, before, after, pending)
    ensures d.before != [] && d.before[0] in pending && d.before[0] in before
    decreases |pending|
  {
    hide Covers, ComponentOf, BoundaryOf;
    if pending != [] {
      var c := ComponentOf(items, axis, Elems(pending), pending[0]);
      HeadInComponent(items, axis, pending);
      SelectShorter(pending, c);
      if d in ReportComponent(items, axis, position, Select(before, c), Select(after, c)) {
        ReportedSide(items, axis, position, Select(before, c), Select(after, c), d);
        assert d.before[0] in Select(before, c);
      } else {
        ReportedWasPending(items, axis, position, before, after, Select(pending, Elems(pending) - c), d);
      }
    }
  }

  lemma HeadInComponent(items: Items, axis: Axis, pending: seq<string>)
    requires Present(items, pending) && pending != []
    ensures var c := ComponentOf(items, axis, Elems(pending), pending[0]);
            pending[0] in c && c <= Elems(pending)
  {
    LinkedToSelf(items, axis, Elems(pending), pending[0]);
  }

  lemma ReportedSide(items: Items, axis: Axis, position: int, left: seq<string>, right: seq<string>, d: Boundary)
    requires Present(items, left + right)
    requires d in ReportComponent(items, axis, position, left, right)
    ensures d.before == left && left != [] && d.axis == axis && d.position == position
    ensures ReportComponent(items, axis, position, left, right) == [d]
  {
  }

  lemma ComponentsUnfold(items: Items, axis: Axis, position: int, before: seq<string>, after: seq<string>,
                         pending: seq<string>)
    requires Present(items, before) && Present(items, after) && Present(items, pending)
    ensures var r := ReportComponents(items, axis, position, before, after, pending);
            if pending == [] then r == []
            else var c := ComponentOf(items, axis, Elems(pending), pending[0]);
                 r == ReportComponent(items, axis, position, Select(before, c), Select(after, c))
                      + ReportComponents(items, axis, position, before, after, Select(pending, Elems(pending) - c))
  {
    hide ReportComponent, ComponentOf;
  }

  /** On one line the boundary whose pane before the line is listed first is reported first. */
  lemma {:induction false} ComponentsInOrder(items: Items, axis: Axis, position: int, before: seq<string>,
                                             after: seq<string>, pending: seq<string>, i: nat, j: nat)
    requires Present(items, before) && Present(items, after) && Present(items, pending)
    requires Distinct(pending) && InOrder(before, pending)
    requires i < j < |ReportComponents(items, axis, position, before, after, pending)|
    ensures var r := ReportComponents(items, axis, position, before, after, pending);
            r[i].before != [] && r[j].before != [] && ComesFirst(before, r[i].before[0], r[j].before[0])
    decreases |pending|
  {
    hide ReportComponent, ReportComponents, ComponentOf, InOrder, ComesFirst, Select;
    ComponentsUnfold(items, axis, position, before, after, pending);
    var c := ComponentOf(items, axis, Elems(pending), pending[0]);
    HeadInComponent(items, axis, pending);
    SelectShorter(pending, c);
    var rest := Select(pending, Elems(pending) - c);
    SelectDistinct(pending, Elems(pending) - c);
    SelectInOrder(before, pending, Elems(pending) - c);
    var mine := ReportComponent(items, axis, position, Select(before, c), Select(after, c));
    var others := ReportComponents(items, axis, position, before, after, rest);
    var r := ReportComponents(items, axis, position, before, after, pending);
    assert r == mine + others;
    if i < |mine| {
      ReportedSide(items, axis, position, Select(before, c), Select(after, c), mine[i]);
      assert r[j] == others[j - 1];
      ReportedWasPending(items, axis, position, before, after, rest, r[j]);
      HeadBefore(before, pending, r[j].before[0], c);
    } else {
      ComponentsInOrder(items, axis, position, before, after, rest, i - |mine|, j - |mine|);
    }
  }

  lemma HeadBefore(before: seq<string>, pending: seq<string>, x: string, c: set<string>)
    requires InOrder(before, pending) && pending != [] && pending[0] in c
    requires x in pending && x != pending[0] && x in before
    ensures Select(before, c) != [] && ComesFirst(before, Select(before, c)[0], x)
  {
    var l :| 0 <= l < |pending| && pending[l] == x;
    HeadComesFirst(before, c, pending[0], x);
  }

  lemma LineInOrder(items: Items, visible: seq<string>, axis: Axis, position: int, i: nat, j: nat)
    requires Present(items, visible)
    requires i < j < |BoundariesAt(items, visible, axis, position)|
    ensures var r := BoundariesAt(items, visible, axis, position);
            r[i].before != [] && r[j].before != [] && ComesFirst(visible, r[i].before[0], r[j].before[0])
  {
    hide ReportComponents, ComesFirst;
    var ending := Ending(items, visible, axis, position);
    var before := Select(visible, ending);
    var after := Select(visible, Starting(items, visible, axis, position));
    var pending := Dedup(before + after);
    PendingInOrder(before, after);
    DedupDistinct(before + after);
    ComponentsInOrder(items, axis, position, before, after, pending, i, j);
    var r := BoundariesAt(items, visible, axis, position);
    assert r[j] in r;
    ReportedWasPending(items, axis, position, before, after, pending, r[j]);
    SelectComesFirst(visible, ending, r[i].before[0], r[j].before[0]);
  }

  // ----- All lines -----

  lemma {:induction false} LinesInOrder(items: Items, visible: seq<string>, axis: Axis, positions: seq<int>,
                                        i: nat, j: nat)
    requires Distinct(visible) && Present(items, visible) && Positive(items, visible) && Distinct(positions)
    requires i < j < |BoundariesAtAll(items, visible, axis, positions)|
    ensures var r := BoundariesAtAll(items, visible, axis, positions);
            && r[i].before != [] && r[j].before != []
            && (|| ComesFirst(positions, r[i].position, r[j].position)
                || (r[i].position == r[j].position && ComesFirst(visible, r[i].before[0], r[j].before[0])))
  {
    hide BoundariesAt, ComesFirst, IsSharedBoundary;
    var init, last := positions[..|positions| - 1], positions[|positions| - 1];
    assert positions == init + [last];
    var earlier, here := BoundariesAtAll(items, visible, axis, init), BoundariesAt(items, visible, axis, last);
    var r := BoundariesAtAll(items, visible, axis, positions);
    assert r == earlier + here;
    if j < |earlier| {
      LinesInOrder(items, visible, axis, init, i, j);
      if r[i].position != r[j].position || ComesFirst(init, r[i].position, r[j].position) {
        ComesFirstLonger(init, [last], r[i].position, r[j].position);
      }
    } else {
      assert r[j] in here;
      BoundariesAtExact(items, visible, axis, last, r[j]);
      BoundaryComponent(items, visible, r[j]);
      if i < |earlier| {
        assert r[i] in earlier;
        BoundariesAtAllExact(items, visible, axis, init, r[i]);
        BoundaryComponent(items, visible, r[i]);
        MemberComesFirst(init, r[i].position, last);
        ComesFirstLonger(init, [last], r[i].position, last);
      } else {
        assert r[i] in here;
        BoundariesAtExact(items, visible, axis, last, r[i]);
        LineInOrder(items, visible, axis, last, i - |earlier|, j - |earlier|);
      }
    }
  }

  lemma AxisInOrder(items: Items, visible: seq<string>, axis: Axis, i: nat, j: nat)
    requires Distinct(visible) && Present(items, visible) && Positive(items, visible)
    requires i < j < |AxisBoundaries(items, visible, axis)|
    ensures var r := AxisBoundaries(items, visible, axis);
            && r[i].before != [] && r[j].before != [] && r[i].axis == axis && r[j].axis == axis
            && Precedes(items, visible, r[i], r[j])
  {
    hide BoundariesAtAll, ComesFirst, IsSharedBoundary;
    var ends := Ends(items, axis, visible);
    var positions := Dedup(ends);
    DedupDistinct(ends);
    LinesInOrder(items, visible, axis, positions, i, j);
    var r := AxisBoundaries(items, visible, axis);
    assert r[i] in r && r[j] in r;
    BoundariesAtAllExact(items, visible, axis, positions, r[i]);
    BoundariesAtAllExact(items, visible, axis, positions, r[j]);
    if ComesFirst(positions, r[i].position, r[j].position) {
      DedupKeepsFirst(ends, r[i].position, r[j].position);
    }
  }

  lemma DedupKeepsFirst(s: seq<int>, a: int, b: int)
    requires ComesFirst(Dedup(s), a, b) && b in s
    ensures ComesFirst(s, a, b)
  {
    var d := Dedup(s);
    var i :| 0 <= i < |d| && d[i] == a && forall k :: 0 <= k <= i ==> d[k] != b;
    assert b in d;
    var j :| 0 <= j < |d| && d[j] == b;
    DedupComesFirst(s, i, j);
  }

  /** The derivation reports every boundary once, and in this order. */
  lemma DerivedInOrder(items: Items, visible: seq<string>, i: nat, j: nat)
    requires Distinct(visible) && Present(items, visible) && Positive(items, visible)
    requires i < j < |Derived(items, visible)|
    ensures var r := Derived(items, visible);
            r[i].before != [] && r[j].before != [] && Precedes(items, visible, r[i], r[j])
  {
    hide AxisBoundaries, ComesFirst, IsSharedBoundary;
    var xs, ys := AxisBoundaries(items, visible, X), AxisBoundaries(items, visible, Y);
    var r := Derived(items, visible);
    assert r == xs + ys;
    if j < |xs| {
      AxisInOrder(items, visible, X, i, j);
    } else if i >= |xs| {
      AxisInOrder(items, visible, Y, i - |xs|, j - |xs|);
    } else {
      AxisMember(items, visible, X, xs[i]);
      AxisMember(items, visible, Y, ys[j - |xs|]);
    }
  }

  lemma AxisMember(items: Items, visible: seq<string>, axis: Axis, b: Boundary)
    requires Distinct(visible) && Present(items, visible) && Positive(items, visible)
    requires b in AxisBoundaries(items, visible, axis)
    ensures b.axis == axis && b.before != []
  {
    hide IsSharedBoundary;
    BoundariesAtAllExact(items, visible, axis, Dedup(Ends(items, axis, visible)), b);
    BoundaryComponent(items, visible, b);
  }
}

/**
 The string that names a shared boundary: the axis, the sorted ids before the line and the sorted
 ids after it. For pane ids without separators the string determines all three.
 */
module PaneIds {
  import opened Sequences

  /** The order of Array.prototype.sort on strings. */
  predicate StringLess(a: string, b: string) {
    if b == [] then false
    else a == [] || a[0] < b[0] || (a[0] == b[0] && StringLess(a[1..], b[1..]))
  }

  function InsertId(id: string, ids: seq<string>): seq<string> {
    if ids == [] || StringLess(id, ids[0]) then [id] + ids
    else [ids[0]] + InsertId(id, ids[1..])
  }

  function SortIds(ids: seq<string>): seq<string> {
    if ids == [] then [] else InsertId(ids[0], SortIds(ids[1..]))
  }

  lemma {:induction false} InsertIdElements(id: string, ids: seq<string>)
    ensures Elems(InsertId(id, ids)) == Elems(ids) + {id}
    ensures InsertId(id, ids) != []
  {
    if !(ids == [] || StringLess(id, ids[0])) {
      InsertIdElements(id, ids[1..]);
      var t := InsertId(id, ids[1..]);
      assert ids == [ids[0]] + ids[1..];
      assert Elems([ids[0]] + t) == {ids[0]} + Elems(t);
    }
  }

  lemma {:induction false} SortIdsElements(ids: seq<string>)
    ensures Elems(SortIds(ids)) == Elems(ids)
    ensures ids != [] ==> SortIds(ids) != []
  {
    if ids != [] {
      SortIdsElements(ids[1..]);
      InsertIdElements(ids[0], SortIds(ids[1..]));
      assert ids == [ids[0]] + ids[1..];
    }
  }

  /** The strings agree before k, where a has the smaller character. */
  ghost predicate LessAt(a: string, b: string, k: nat) {
    k < |a| && k < |b| && (forall l :: 0 <= l < k ==> a[l] == b[l]) && a[k] < b[k]
  }

  ghost predicate Extends(b: string, a: string) {
    |a| < |b| && forall l :: 0 <= l < |a| ==> a[l] == b[l]
  }

  lemma LessAtShift(a: string, b: string, k: nat)
    requires a != [] && b != [] && a[0] == b[0]
    ensures LessAt(a[1..], b[1..], k) <==> LessAt(a, b, k + 1)
    ensures Extends(b[1..], a[1..]) <==> Extends(b, a)
    ensures !LessAt(a, b, 0)
  {
    var s, t := a[1..], b[1..];
    assert forall l :: 0 <= l < |s| ==> s[l] == a[l + 1];
    assert forall l :: 0 <= l < |t| ==> t[l] == b[l + 1];
    if LessAt(s, t, k) {
      forall l | 0 <= l < k + 1 ensures a[l] == b[l] {
        assert l > 0 ==> s[l - 1] == t[l - 1];
      }
    }
    if Extends(t, s) {
      forall l | 0 <= l < |a| ensures a[l] == b[l] {
        assert l > 0 ==> s[l - 1] == t[l - 1];
      }
    }
  }

  /** The first place where two strings differ decides, and a string comes before its extensions. */
  lemma {:induction false} StringLessExactly(a: string, b: string)
    ensures StringLess(a, b) <==> Extends(b, a) || exists k: nat :: LessAt(a, b, k)
  {
    if a != [] && b != [] {
      if a[0] == b[0] {
        StringLessExactly(a[1..], b[1..]);
        forall k: nat ensures LessAt(a[1..], b[1..], k) <==> LessAt(a, b, k + 1) {
          LessAtShift(a, b, k);
        }
        LessAtShift(a, b, 0);
        if k: nat :| LessAt(a, b, k) {
          assert LessAt(a[1..], b[1..], k - 1);
        }
      } else {
        assert LessAt(a, b, 0) <==> a[0] < b[0];
      }
    }
  }

  lemma {:induction false} StringLessTotal(a: string, b: string)
    ensures a == b || StringLess(a, b) || StringLess(b, a)
    ensures !(StringLess(a, b) && StringLess(b, a))
  {
    if a != [] && b != [] {
      StringLessTotal(a[1..], b[1..]);
      assert a == [a[0]] + a[1..] && b == [b[0]] + b[1..];
    }
  }

  lemma {:induction false} StringLessTransitive(a: string, b: string, c: string)
    requires StringLess(a, b) && StringLess(b, c)
    ensures StringLess(a, c)
  {
    if a != [] && a[0] == b[0] == c[0] {
      StringLessTransitive(a[1..], b[1..], c[1..]);
    }
  }

  ghost predicate Sorted(ids: seq<string>) {
    forall i, j :: 0 <= i < j < |ids| ==> !StringLess(ids[j], ids[i])
  }

  lemma {:induction false} InsertIdSorted(id: string, ids: seq<string>)
    requires Sorted(ids)
    ensures Sorted(InsertId(id, ids))
    ensures multiset(InsertId(id, ids)) == multiset(ids) + multiset{id}
  {
    hide StringLess;
    if ids == [] {
    } else if StringLess(id, ids[0]) {
      forall j | 0 <= j < |ids| ensures !StringLess(ids[j], id) {
        if StringLess(ids[j], id) {
          StringLessTransitive(ids[j], id, ids[0]);
          StringLessTotal(ids[0], ids[j]);
        }
      }
    } else {
      InsertIdSorted(id, ids[1..]);
      var t := InsertId(id, ids[1..]);
      assert ids == [ids[0]] + ids[1..];
      forall j | 0 <= j < |t| ensures !StringLess(t[j], ids[0]) {
        assert t[j] in multiset(t);
        assert t[j] == id || t[j] in ids[1..];
      }
    }
  }

  /** Sorting lists the same ids in the order of their characters. */
  lemma {:induction false} SortIdsSorted(ids: seq<string>)
    ensures Sorted(SortIds(ids)) && multiset(SortIds(ids)) == multiset(ids)
  {
    if ids != [] {
      SortIdsSorted(ids[1..]);
      InsertIdSorted(ids[0], SortIds(ids[1..]));
      assert ids == [ids[0]] + ids[1..];
    }
  }

  /** There is one sorted list of given ids. */
  lemma {:induction false} SortedOnce(a: seq<string>, b: seq<string>)
    requires Sorted(a) && Sorted(b) && multiset(a) == multiset(b)
    ensures a == b
  {
    hide StringLess, Sorted;
    SameSize(a, b);
    if a != [] {
      SameHead(a, b);
      WithoutHead(a);
      WithoutHead(b);
      SortedOnce(a[1..], b[1..]);
    }
  }

  lemma WithoutHead(s: seq<string>)
    requires s != []
    ensures multiset(s[1..]) == multiset(s) - multiset{s[0]} && s == [s[0]] + s[1..]
    ensures Sorted(s) ==> Sorted(s[1..])
  {
    hide StringLess;
    assert s == [s[0]] + s[1..];
  }

  lemma SameSize(a: seq<string>, b: seq<string>)
    requires multiset(a) == multiset(b)
    ensures |a| == |b|
  {
    assert |a| == |multiset(a)| && |b| == |multiset(b)|;
  }

  lemma SameHead(a: seq<string>, b: seq<string>)
    requires Sorted(a) && Sorted(b) && multiset(a) == multiset(b) && a != [] && b != []
    ensures a[0] == b[0]
  {
    hide StringLess;
    assert a[0] in multiset(b) && b[0] in multiset(a);
    var i :| 0 <= i < |b| && b[i] == a[0];
    var j :| 0 <= j < |a| && a[j] == b[0];
    StringLessTotal(a[0], b[0]);
  }

  /** The name depends on which panes stand on each side, not on how they are listed. */
  lemma NameIgnoresOrder(axisName: string, before: seq<string>, after: seq<string>,
                         before': seq<string>, after': seq<string>)
    requires multiset(before) == multiset(before') && multiset(after) == multiset(after')
    ensures BoundaryId(axisName, before, after) == BoundaryId(axisName, before', after')
  {
    SortIdsSorted(before); SortIdsSorted(before'); SortIdsSorted(after); SortIdsSorted(after');
    SortedOnce(SortIds(before), SortIds(before'));
    SortedOnce(SortIds(after), SortIds(after'));
  }

  /** ids.join(',') */
  function Join(ids: seq<string>): string {
    if ids == [] then ""
    else if |ids| == 1 then ids[0]
    else ids[0] + "," + Join(ids[1..])
  }

  function BoundaryId(axisName: string, before: seq<string>, after: seq<string>): string {
    axisName + ":" + Join(SortIds(before)) + ":" + Join(SortIds(after))
  }

  /** An id that uses neither of the separators. */
  predicate Plain(id: string) {
    ',' !in id && ':' !in id
  }

  ghost predicate AllPlain(ids: seq<string>) {
    forall id :: id in ids ==> Plain(id)
  }

  /** Where the first separator stands in a text that starts with a separator-free part. */
  lemma SeparatorAt(a: string, rest: string, separator: char, k: nat)
    requires separator !in a
    requires k < |a + [separator] + rest| && (a + [separator] + rest)[k] == separator
    ensures |a| <= k
  {
    assert forall i :: 0 <= i < |a| ==> a[i] in a && (a + [separator] + rest)[i] == a[i];
  }

  /** Text before the first separator is determined by the whole. */
  lemma SplitAtSeparator(a: string, b: string, restA: string, restB: string, separator: char)
    requires separator !in a && separator !in b
    requires a + [separator] + restA == b + [separator] + restB
    ensures a == b && restA == restB
  {
    var s, t := a + [separator] + restA, b + [separator] + restB;
    SeparatorAt(a, restA, separator, |b|);
    SeparatorAt(b, restB, separator, |a|);
    assert s[..|a|] == a && t[..|b|] == b;
    assert s[|a| + 1..] == restA && t[|b| + 1..] == restB;
  }

  lemma {:induction false} JoinPlain(ids: seq<string>)
    requires AllPlain(ids)
    ensures ':' !in Join(ids)
  {
    if ids != [] {
      assert ids[0] in ids;
      JoinPlain(ids[1..]);
    }
  }

  lemma JoinHasSeparator(ids: seq<string>)
    requires |ids| > 1
    ensures ',' in Join(ids)
  {
    assert Join(ids)[|ids[0]|] == ',';
  }

  lemma {:induction false} JoinInjective(a: seq<string>, b: seq<string>)
    requires AllPlain(a) && AllPlain(b) && a != [] && b != []
    requires Join(a) == Join(b)
    ensures a == b
  {
    assert a[0] in a && b[0] in b;
    if |a| > 1 {
      JoinHasSeparator(a);
    }
    if |b| > 1 {
      JoinHasSeparator(b);
    }
    if |a| > 1 && |b| > 1 {
      assert Join(a) == a[0] + [','] + Join(a[1..]);
      assert Join(b) == b[0] + [','] + Join(b[1..]);
      SplitAtSeparator(a[0], b[0], Join(a[1..]), Join(b[1..]), ',');
      JoinInjective(a[1..], b[1..]);
      assert a == [a[0]] + a[1..] && b == [b[0]] + b[1..];
    }
  }

  /** Equal boundary names mean the same axis and the same panes on each side. */
  lemma BoundaryIdInjective(axisA: string, beforeA: seq<string>, afterA: seq<string>,
                            axisB: string, beforeB: seq<string>, afterB: seq<string>)
    requires Plain(axisA) && Plain(axisB)
    requires beforeA != [] && afterA != [] && beforeB != [] && afterB != []
    requires AllPlain(beforeA) && AllPlain(afterA) && AllPlain(beforeB) && AllPlain(afterB)
    requires BoundaryId(axisA, beforeA, afterA) == BoundaryId(axisB, beforeB, afterB)
    ensures axisA == axisB && Elems(beforeA) == Elems(beforeB) && Elems(afterA) == Elems(afterB)
  {
    SortedPlain(beforeA); SortedPlain(afterA); SortedPlain(beforeB); SortedPlain(afterB);
    var ba, aa, bb, ab := SortIds(beforeA), SortIds(afterA), SortIds(beforeB), SortIds(afterB);
    JoinPlain(ba); JoinPlain(aa); JoinPlain(bb); JoinPlain(ab);
    var restA, restB := Join(ba) + ":" + Join(aa), Join(bb) + ":" + Join(ab);
    assert BoundaryId(axisA, beforeA, afterA) == axisA + [':'] + restA;
    assert BoundaryId(axisB, beforeB, afterB) == axisB + [':'] + restB;
    SplitAtSeparator(axisA, axisB, restA, restB, ':');
    SplitAtSeparator(Join(ba), Join(bb), Join(aa), Join(ab), ':');
    JoinInjective(ba, bb);
    JoinInjective(aa, ab);
  }

  lemma SortedPlain(ids: seq<string>)
    requires AllPlain(ids) && ids != []
    ensures AllPlain(SortIds(ids)) && SortIds(ids) != []
    ensures Elems(SortIds(ids)) == Elems(ids)
  {
    SortIdsElements(ids);
    forall id | id in SortIds(ids) ensures Plain(id) {
      assert id in Elems(ids);
    }
  }
}

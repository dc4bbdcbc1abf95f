/** Finite sequences used as JavaScript arrays and insertion-ordered Sets. */
module Sequences {

  ghost predicate Distinct<T>(s: seq<T>) {
    forall i, j :: 0 <= i < j < |s| ==> s[i] != s[j]
  }

  function Elems<T>(s: seq<T>): set<T> {
    set x | x in s
  }

  /** s.filter(x => keep.has(x)) */
  function Select<T(==,!new)>(s: seq<T>, keep: set<T>): (r: seq<T>)
    ensures forall x :: x in r <==> x in s && x in keep
    ensures |r| <= |s|
  {
    if s == [] then []
    else if s[0] in keep then [s[0]] + Select(s[1..], keep)
    else Select(s[1..], keep)
  }

  /** Filtering goes through the list from front to back. */
  lemma {:induction false} SelectConcat<T(!new)>(s: seq<T>, t: seq<T>, keep: set<T>)
    ensures Select(s + t, keep) == Select(s, keep) + Select(t, keep)
  {
    if s == [] {
      assert s + t == t;
    } else {
      assert (s + t)[1..] == s[1..] + t;
      SelectConcat(s[1..], t, keep);
    }
  }

  /** The insertion order of new Set(s). */
  function Dedup<T(==,!new)>(s: seq<T>): (r: seq<T>)
    ensures forall x :: x in r <==> x in s
  {
    if s == [] then []
    else
      var init := Dedup(s[..|s| - 1]);
      if s[|s| - 1] in init then init else init + [s[|s| - 1]]
  }

  lemma {:induction false} DedupDistinct<T(!new)>(s: seq<T>)
    ensures Distinct(Dedup(s))
  {
    if s != [] {
      DedupDistinct(s[..|s| - 1]);
    }
  }

  lemma {:induction false} SelectDistinct<T(!new)>(s: seq<T>, keep: set<T>)
    requires Distinct(s)
    ensures Distinct(Select(s, keep))
  {
    if s != [] {
      SelectDistinct(s[1..], keep);
    }
  }

  lemma {:induction false} SelectSelect<T(!new)>(s: seq<T>, first: set<T>, second: set<T>)
    ensures Select(Select(s, first), second) == Select(s, first * second)
  {
    if s != [] {
      SelectSelect(s[1..], first, second);
      if s[0] in first {
        assert ([s[0]] + Select(s[1..], first))[1..] == Select(s[1..], first);
      }
    }
  }

  lemma {:induction false} SelectAll<T(!new)>(s: seq<T>, keep: set<T>)
    requires forall x :: x in s ==> x in keep
    ensures Select(s, keep) == s
  {
    if s != [] {
      SelectAll(s[1..], keep);
    }
  }

  lemma {:induction false} SelectCongruence<T(!new)>(s: seq<T>, first: set<T>, second: set<T>)
    requires forall x :: x in s ==> (x in first <==> x in second)
    ensures Select(s, first) == Select(s, second)
  {
    if s != [] {
      SelectCongruence(s[1..], first, second);
    }
  }

  lemma DeleteBehindHead<T>(head: T, t: seq<T>, k: nat)
    requires 0 < k <= |t|
    ensures var r := [head] + t;
            r[..k] + r[k + 1..] == [head] + (t[..k - 1] + t[k..])
  {
  }

  /** Deleting one element of a filtered sequence filters by one element less. */
  lemma {:induction false} SelectDelete<T(!new)>(s: seq<T>, keep: set<T>, k: nat)
    requires Distinct(s)
    requires k < |Select(s, keep)|
    ensures var r := Select(s, keep);
            r[..k] + r[k + 1..] == Select(s, keep - {r[k]})
  {
    var r := Select(s, keep);
    var t := Select(s[1..], keep);
    if s[0] !in keep {
      SelectDelete(s[1..], keep, k);
    } else if k == 0 {
      SelectCongruence(s[1..], keep, keep - {s[0]});
      assert r[..0] + r[1..] == t;
    } else {
      SelectDelete(s[1..], keep, k - 1);
      assert s[0] != r[k] by { assert t[k - 1] in s[1..]; }
      DeleteBehindHead(s[0], t, k);
    }
  }
}

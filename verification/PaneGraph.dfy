/**
 The graph of panes touching one line: two panes are adjacent when their extents along the line
 meet. Its connected components, and the search that finds one of them.
 */
module PaneGraph {
  import opened Sequences
  import opened LoggerGrid

  ghost predicate Known(items: Items, pool: set<string>) {
    forall id :: id in pool ==> id in items
  }

  /** Two panes on a line across the axis share a stretch of that line. */
  predicate Faces(items: Items, axis: Axis, a: string, b: string)
    requires a in items && b in items
  {
    OverlapAlong(items[a], items[b], axis.Cross())
  }

  ghost predicate IsPath(items: Items, axis: Axis, pool: set<string>, p: seq<string>)
    requires Known(items, pool)
  {
    && p != []
    && (forall i :: 0 <= i < |p| ==> p[i] in pool)
    && (forall i :: 0 <= i < |p| - 1 ==> Faces(items, axis, p[i], p[i + 1]))
  }

  ghost predicate PathBetween(items: Items, axis: Axis, pool: set<string>, a: string, b: string, p: seq<string>)
    requires Known(items, pool)
  {
    IsPath(items, axis, pool, p) && p[0] == a && p[|p| - 1] == b
  }

  /** A chain of facing panes, all in the pool, leads from a to b. */
  ghost predicate Linked(items: Items, axis: Axis, pool: set<string>, a: string, b: string)
    requires Known(items, pool)
  {
    exists p :: PathBetween(items, axis, pool, a, b, p)
  }

  ghost function ComponentOf(items: Items, axis: Axis, pool: set<string>, seed: string): set<string>
    requires Known(items, pool)
  {
    set id | id in pool && Linked(items, axis, pool, seed, id)
  }

  /** A non-empty part of the pool whose members reach exactly each other. */
  ghost predicate IsComponent(items: Items, axis: Axis, pool: set<string>, c: set<string>)
    requires Known(items, pool)
  {
    && c != {} && c <= pool
    && forall a, b :: a in c && b in pool ==> (Linked(items, axis, pool, a, b) <==> b in c)
  }

  /** No pane inside faces a pane of the pool that is outside. */
  ghost predicate Closed(items: Items, axis: Axis, pool: set<string>, inside: set<string>)
    requires Known(items, pool)
  {
    inside <= pool
    && forall a, b :: a in inside && b in pool && b !in inside ==> !Faces(items, axis, a, b)
  }

  // ----- Paths -----

  lemma LinkedToSelf(items: Items, axis: Axis, pool: set<string>, a: string)
    requires Known(items, pool) && a in pool
    ensures Linked(items, axis, pool, a, a)
  {
    assert PathBetween(items, axis, pool, a, a, [a]);
  }

  lemma LinkedStep(items: Items, axis: Axis, pool: set<string>, a: string, b: string, c: string)
    requires Known(items, pool) && b in pool && c in pool
    requires Linked(items, axis, pool, a, b) && Faces(items, axis, b, c)
    ensures Linked(items, axis, pool, a, c)
  {
    var p :| PathBetween(items, axis, pool, a, b, p);
    assert PathBetween(items, axis, pool, a, c, p + [c]);
  }

  lemma LinkedTransitive(items: Items, axis: Axis, pool: set<string>, a: string, b: string, c: string)
    requires Known(items, pool)
    requires Linked(items, axis, pool, a, b) && Linked(items, axis, pool, b, c)
    ensures Linked(items, axis, pool, a, c)
  {
    var p :| PathBetween(items, axis, pool, a, b, p);
    var q :| PathBetween(items, axis, pool, b, c, q);
    assert PathBetween(items, axis, pool, a, c, p + q[1..]) by {
      var r := p + q[1..];
      forall i | 0 <= i < |r| - 1 ensures Faces(items, axis, r[i], r[i + 1]) {
        if i >= |p| - 1 {
          assert r[i] == q[i - |p| + 1] && r[i + 1] == q[i - |p| + 2];
        }
      }
    }
  }

  lemma LinkedSymmetric(items: Items, axis: Axis, pool: set<string>, a: string, b: string)
    requires Known(items, pool)
    requires Linked(items, axis, pool, a, b)
    ensures Linked(items, axis, pool, b, a)
  {
    var p :| PathBetween(items, axis, pool, a, b, p);
    var r := seq(|p|, i requires 0 <= i < |p| => p[|p| - 1 - i]);
    assert PathBetween(items, axis, pool, b, a, r) by {
      forall i | 0 <= i < |r| - 1 ensures Faces(items, axis, r[i], r[i + 1]) {
        assert Faces(items, axis, p[|p| - 2 - i], p[|p| - 2 - i + 1]);
      }
    }
  }

  /** A path that starts inside a closed part never leaves it. */
  lemma {:induction false} PathStaysInside(items: Items, axis: Axis, pool: set<string>, inside: set<string>,
                                           p: seq<string>)
    requires Known(items, pool) && Closed(items, axis, pool, inside)
    requires IsPath(items, axis, pool, p) && p[0] in inside
    ensures IsPath(items, axis, inside, p)
    ensures p[|p| - 1] in inside
  {
    if |p| > 1 {
      assert Faces(items, axis, p[0], p[0 + 1]);
      var rest := p[1..];
      forall i | 0 <= i < |rest| - 1 ensures Faces(items, axis, rest[i], rest[i + 1]) {
        assert Faces(items, axis, p[i + 1], p[i + 1 + 1]);
      }
      PathStaysInside(items, axis, pool, inside, rest);
      forall i | 0 <= i < |p| ensures p[i] in inside {
        if i > 0 {
          assert p[i] == rest[i - 1];
        }
      }
    }
  }

  /** Inside a closed part, the pool's links and the part's own links agree. */
  lemma LinkedInside(items: Items, axis: Axis, pool: set<string>, inside: set<string>, a: string, b: string)
    requires Known(items, pool) && Closed(items, axis, pool, inside) && a in inside
    ensures Known(items, inside)
    ensures Linked(items, axis, pool, a, b) <==> Linked(items, axis, inside, a, b)
  {
    if Linked(items, axis, pool, a, b) {
      var p :| PathBetween(items, axis, pool, a, b, p);
      PathStaysInside(items, axis, pool, inside, p);
      assert PathBetween(items, axis, inside, a, b, p);
    }
    if Linked(items, axis, inside, a, b) {
      var p :| PathBetween(items, axis, inside, a, b, p);
      assert PathBetween(items, axis, pool, a, b, p);
    }
  }

  // ----- Components -----

  lemma ComponentOfIsComponent(items: Items, axis: Axis, pool: set<string>, seed: string)
    requires Known(items, pool) && seed in pool
    ensures IsComponent(items, axis, pool, ComponentOf(items, axis, pool, seed))
    ensures seed in ComponentOf(items, axis, pool, seed)
    ensures Closed(items, axis, pool, ComponentOf(items, axis, pool, seed))
  {
    var c := ComponentOf(items, axis, pool, seed);
    LinkedToSelf(items, axis, pool, seed);
    forall a, b | a in c && b in pool
      ensures Linked(items, axis, pool, a, b) <==> b in c
    {
      LinkedSymmetric(items, axis, pool, seed, a);
      if Linked(items, axis, pool, a, b) {
        LinkedTransitive(items, axis, pool, seed, a, b);
      }
      if b in c {
        LinkedTransitive(items, axis, pool, a, seed, b);
      }
    }
    forall a, b | a in c && b in pool && b !in c
      ensures !Faces(items, axis, a, b)
    {
      if Faces(items, axis, a, b) {
        LinkedStep(items, axis, pool, seed, a, b);
      }
    }
  }

  /** A component is the component of each of its members. */
  lemma ComponentOfMember(items: Items, axis: Axis, pool: set<string>, c: set<string>, member: string)
    requires Known(items, pool) && IsComponent(items, axis, pool, c) && member in c
    ensures ComponentOf(items, axis, pool, member) == c
  {
  }

  lemma ComponentIsClosed(items: Items, axis: Axis, pool: set<string>, c: set<string>)
    requires Known(items, pool) && IsComponent(items, axis, pool, c)
    ensures Closed(items, axis, pool, c)
  {
    var member :| member in c;
    ComponentOfMember(items, axis, pool, c, member);
    ComponentOfIsComponent(items, axis, pool, member);
  }

  /** Components do not overlap. */
  lemma ComponentsDisjoint(items: Items, axis: Axis, pool: set<string>, c: set<string>, d: set<string>, id: string)
    requires Known(items, pool)
    requires IsComponent(items, axis, pool, c) && IsComponent(items, axis, pool, d)
    requires id in c && id in d
    ensures c == d
  {
    ComponentOfMember(items, axis, pool, c, id);
    ComponentOfMember(items, axis, pool, d, id);
  }

  /** Dropping closed parts from the pool does not change the components that remain. */
  lemma ComponentInside(items: Items, axis: Axis, pool: set<string>, inside: set<string>, seed: string)
    requires Known(items, pool) && Closed(items, axis, pool, inside) && seed in inside
    ensures Known(items, inside)
    ensures ComponentOf(items, axis, inside, seed) == ComponentOf(items, axis, pool, seed)
  {
    forall b ensures b in ComponentOf(items, axis, inside, seed) <==> b in ComponentOf(items, axis, pool, seed) {
      LinkedInside(items, axis, pool, inside, seed, b);
      if Linked(items, axis, inside, seed, b) {
        var p :| PathBetween(items, axis, inside, seed, b, p);
      }
    }
  }

  /** A closed part whose members are all linked to one seed within it is that seed's component. */
  lemma ClosedLinkedIsComponent(items: Items, axis: Axis, pool: set<string>, c: set<string>, seed: string)
    requires Known(items, pool) && Closed(items, axis, pool, c) && seed in c
    requires forall id :: id in c ==> Linked(items, axis, c, seed, id)
    ensures IsComponent(items, axis, pool, c)
  {
    ComponentInside(items, axis, pool, c, seed);
    assert ComponentOf(items, axis, c, seed) == c;
    ComponentOfIsComponent(items, axis, pool, seed);
  }

  // ----- The search -----

  /** Moves every pending pane that faces the current one out of the pending set, in order. */
  method TakeFacing(items: Items, axis: Axis, current: string, pending: seq<string>)
    returns (taken: seq<string>, rest: seq<string>)
    requires current in items && Distinct(pending)
    requires Known(items, Elems(pending))
    ensures Elems(taken) <= Elems(pending)
    ensures forall id :: id in pending ==> (id in taken <==> Faces(items, axis, current, id))
    ensures rest == Select(pending, Elems(pending) - Elems(taken))
    ensures |rest| + |taken| == |pending|
  {
    hide Select, Faces;
    ghost var all := Elems(pending);
    taken, rest := [], pending;
    SelectAll(pending, all - Elems(taken));
    var k := 0;
    while k < |rest|
      invariant 0 <= k <= |rest| && |rest| + |taken| == |pending|
      invariant Elems(taken) <= all
      invariant rest == Select(pending, all - Elems(taken))
      invariant forall id :: id in taken ==> Faces(items, axis, current, id)
      invariant forall i :: 0 <= i < k ==> !Faces(items, axis, current, rest[i])
      decreases |rest| - k
    {
      var id := rest[k];
      if Faces(items, axis, current, id) {
        SelectDelete(pending, all - Elems(taken), k);
        assert all - Elems(taken) - {id} == all - Elems(taken + [id]);
        taken := taken + [id];
        rest := rest[..k] + rest[k + 1..];
      } else {
        k := k + 1;
      }
    }
  }

  /** The search so far: everything collected is linked to the seed, and the first panes are done. */
  ghost predicate Searched(items: Items, axis: Axis, pool: seq<string>, component: seq<string>,
                           rest: seq<string>, done: int)
    requires pool != [] && Known(items, Elems(pool))
  {
    && 0 <= done <= |component| && pool[0] in component
    && Elems(component) <= Elems(pool)
    && rest == Select(pool, Elems(pool) - Elems(component))
    && (forall id :: id in component ==> Linked(items, axis, Elems(pool), pool[0], id))
    && (forall i, id :: 0 <= i < done && id in rest ==> !Faces(items, axis, component[i], id))
  }

  /**
   Takes the first pending pane and moves everything it is linked to from the pending set to the
   component. The pending set keeps its insertion order.
   */
  method GrowComponent(items: Items, axis: Axis, pool: seq<string>) returns (component: seq<string>, rest: seq<string>)
    requires pool != [] && Distinct(pool)
    requires Known(items, Elems(pool))
    ensures Elems(component) == ComponentOf(items, axis, Elems(pool), pool[0])
    ensures rest == Select(pool, Elems(pool) - Elems(component))
    ensures component != []
  {
    component := [pool[0]];
    rest := pool[1..];
    SearchStarts(items, axis, pool);
    var index := 0;
    while index < |component|
      invariant Searched(items, axis, pool, component, rest, index)
      decreases |rest|, |component| - index
    {
      var current := component[index];
      assert current in component;
      SelectDistinct(pool, Elems(pool) - Elems(component));
      var taken, left := TakeFacing(items, axis, current, rest);
      SearchStep(items, axis, pool, component, rest, index, taken, left);
      component, rest := component + taken, left;
      index := index + 1;
    }
    ComponentFound(items, axis, pool, component, rest);
  }

  lemma SearchStarts(items: Items, axis: Axis, pool: seq<string>)
    requires pool != [] && Distinct(pool) && Known(items, Elems(pool))
    ensures Searched(items, axis, pool, [pool[0]], pool[1..], 0)
  {
    LinkedToSelf(items, axis, Elems(pool), pool[0]);
    SelectAll(pool[1..], Elems(pool) - {pool[0]});
    assert Elems([pool[0]]) == {pool[0]};
  }

  lemma SearchStep(items: Items, axis: Axis, pool: seq<string>, component: seq<string>, rest: seq<string>,
                   index: nat, taken: seq<string>, left: seq<string>)
    requires pool != [] && Distinct(pool) && Known(items, Elems(pool))
    requires Searched(items, axis, pool, component, rest, index) && index < |component|
    requires Elems(taken) <= Elems(rest)
    requires forall id :: id in rest ==> (id in taken <==> Faces(items, axis, component[index], id))
    requires left == Select(rest, Elems(rest) - Elems(taken))
    ensures Searched(items, axis, pool, component + taken, left, index + 1)
  {
    hide Linked, Select, Faces;
    var all, current := Elems(pool), component[index];
    assert current in component;
    forall id | id in taken ensures Linked(items, axis, all, pool[0], id) {
      assert id in Elems(taken);
      LinkedStep(items, axis, all, pool[0], current, id);
    }
    RestAfterTaking(pool, Elems(component), rest, taken, left);
    assert Elems(component + taken) == Elems(component) + Elems(taken);
    forall i, id | 0 <= i < index + 1 && id in left
      ensures !Faces(items, axis, (component + taken)[i], id)
    {
      assert id in rest && id !in taken;
    }
  }

  lemma RestAfterTaking(pool: seq<string>, component: set<string>, rest: seq<string>, taken: seq<string>,
                        left: seq<string>)
    requires rest == Select(pool, Elems(pool) - component)
    requires Elems(taken) <= Elems(rest)
    requires left == Select(rest, Elems(rest) - Elems(taken))
    ensures left == Select(pool, Elems(pool) - (component + Elems(taken)))
  {
    SelectSelect(pool, Elems(pool) - component, Elems(rest) - Elems(taken));
    SelectCongruence(pool, (Elems(pool) - component) * (Elems(rest) - Elems(taken)),
                     Elems(pool) - (component + Elems(taken)));
  }

  /** When no pending pane faces a collected one, the collected panes are the seed's component. */
  lemma ComponentFound(items: Items, axis: Axis, pool: seq<string>, component: seq<string>, rest: seq<string>)
    requires pool != [] && Known(items, Elems(pool))
    requires Searched(items, axis, pool, component, rest, |component|)
    ensures Elems(component) == ComponentOf(items, axis, Elems(pool), pool[0])
  {
    var c, all := Elems(component), Elems(pool);
    forall a, b | a in c && b in all && b !in c ensures !Faces(items, axis, a, b) {
      var i :| 0 <= i < |component| && component[i] == a;
      assert b in rest;
    }
    assert Closed(items, axis, all, c);
    forall id | id in ComponentOf(items, axis, all, pool[0]) ensures id in c {
      var p :| PathBetween(items, axis, all, pool[0], id, p);
      PathStaysInside(items, axis, all, c, p);
    }
  }
}

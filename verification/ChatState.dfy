/**
 The chat message collection: a keyed, insertion-ordered map that is reconciled with incoming
 messages and snapshots, sorted for display, and trimmed from its oldest end.
 */
module ChatState {
  import opened Wrappers

  datatype Message = Message(id: string, createdAt: string, cleared: bool, content: string)

  /**
   Where each string stands in the collation. Any total order in which distinct strings compare as
   distinct is given by an injective ranking, so localeCompare is a comparison of ranks.
   */
  type Collation = string -> real

  ghost predicate Orders(rank: Collation) {
    forall a, b :: rank(a) == rank(b) ==> a == b
  }

  function LocaleCompare(rank: Collation, left: string, right: string): int {
    if rank(left) < rank(right) then -1 else if rank(left) > rank(right) then 1 else 0
  }

  /** Sent earlier, or at the same time with the smaller id. */
  predicate Earlier(rank: Collation, a: Message, b: Message) {
    rank(a.createdAt) < rank(b.createdAt) || (rank(a.createdAt) == rank(b.createdAt) && rank(a.id) < rank(b.id))
  }

  function CompareMessages(rank: Collation, left: Message, right: Message): (order: int)
    ensures order < 0 <==> Earlier(rank, left, right)
    ensures order > 0 <==> Earlier(rank, right, left)
  {
    var byTime := LocaleCompare(rank, left.createdAt, right.createdAt);
    if byTime != 0 then byTime else LocaleCompare(rank, left.id, right.id)
  }

  predicate Before(rank: Collation, left: Message, right: Message) {
    CompareMessages(rank, left, right) < 0
  }

  // ----- The map, as its entries in insertion order -----

  type Entries = seq<Message>

  ghost predicate DistinctIds(entries: Entries) {
    forall i, j :: 0 <= i < j < |entries| ==> entries[i].id != entries[j].id
  }

  predicate Has(entries: Entries, id: string) {
    exists m :: m in entries && m.id == id
  }

  /** What the map holds under an id. */
  function Lookup(entries: Entries, id: string): (r: Option<Message>)
    ensures r.Some? ==> r.value in entries && r.value.id == id
    ensures r.None? <==> !Has(entries, id)
  {
    if entries == [] then None
    else if entries[0].id == id then Some(entries[0])
    else Lookup(entries[1..], id)
  }

  /** Map.set: an existing key keeps its place. */
  function Upsert(entries: Entries, m: Message): Entries {
    if entries == [] then [m]
    else if entries[0].id == m.id then [m] + entries[1..]
    else [entries[0]] + Upsert(entries[1..], m)
  }

  /** Map.delete */
  function Without(entries: Entries, id: string): (r: Entries)
    ensures forall x :: x in r <==> x in entries && x.id != id
    ensures |r| <= |entries|
    ensures Has(entries, id) ==> |r| < |entries|
  {
    if entries == [] then []
    else if entries[0].id == id then Without(entries[1..], id)
    else [entries[0]] + Without(entries[1..], id)
  }

  lemma {:induction false} UpsertMembers(entries: Entries, m: Message)
    requires DistinctIds(entries)
    ensures forall x :: x in Upsert(entries, m) <==> x == m || (x in entries && x.id != m.id)
  {
    if entries != [] {
      var head, rest := entries[0], entries[1..];
      assert entries == [head] + rest;
      assert forall x :: x in rest ==> x.id != head.id;
      if head.id != m.id {
        UpsertMembers(rest, m);
      }
    }
  }

  lemma {:induction false} UpsertSize(entries: Entries, m: Message)
    ensures |Upsert(entries, m)| == |entries| + (if Has(entries, m.id) then 0 else 1)
    ensures !Has(entries, m.id) ==> Upsert(entries, m) == entries + [m]
  {
    if entries != [] {
      var head, rest := entries[0], entries[1..];
      assert entries == [head] + rest;
      if head.id == m.id {
        assert head in entries;
      } else {
        UpsertSize(rest, m);
        assert Has(entries, m.id) <==> Has(rest, m.id);
        assert [head] + (rest + [m]) == entries + [m];
      }
    }
  }

  lemma {:induction false} UpsertDistinct(entries: Entries, m: Message)
    requires DistinctIds(entries)
    ensures DistinctIds(Upsert(entries, m))
  {
    if entries != [] {
      var head, rest := entries[0], entries[1..];
      UpsertDistinct(rest, m);
      UpsertMembers(rest, m);
      var t := if head.id == m.id then rest else Upsert(rest, m);
      forall k | 0 <= k < |t| ensures t[k].id != head.id {
        assert t[k] in t;
      }
    }
  }

  /** Setting a message under an id the map holds leaves every id in its place. */
  lemma {:induction false} UpsertKeepsPlaces(entries: Entries, m: Message)
    ensures |entries| <= |Upsert(entries, m)|
    ensures forall k :: 0 <= k < |entries| ==> Upsert(entries, m)[k].id == entries[k].id
  {
    if entries != [] {
      UpsertKeepsPlaces(entries[1..], m);
      var r := Upsert(entries[1..], m);
      assert forall k :: 0 <= k < |entries| - 1 ==> r[k].id == entries[1..][k].id == entries[k + 1].id;
    }
  }

  lemma UpsertFacts(entries: Entries, m: Message)
    requires DistinctIds(entries)
    ensures var r := Upsert(entries, m);
            && DistinctIds(r)
            && (forall x :: x in r <==> x == m || (x in entries && x.id != m.id))
            && |r| == |entries| + (if Has(entries, m.id) then 0 else 1)
            && (!Has(entries, m.id) ==> r == entries + [m])
  {
    UpsertMembers(entries, m);
    UpsertSize(entries, m);
    UpsertDistinct(entries, m);
  }

  lemma {:induction false} WithoutMissing(entries: Entries, id: string)
    requires !Has(entries, id)
    ensures Without(entries, id) == entries
  {
    if entries != [] {
      var head, rest := entries[0], entries[1..];
      assert entries == [head] + rest;
      assert head in entries;
      assert !Has(rest, id) by { assert forall x :: x in rest ==> x in entries; }
      WithoutMissing(rest, id);
    }
  }

  lemma {:induction false} WithoutDistinct(entries: Entries, id: string)
    requires DistinctIds(entries)
    ensures DistinctIds(Without(entries, id))
  {
    if entries != [] {
      var head, rest := entries[0], entries[1..];
      WithoutDistinct(rest, id);
      var t := Without(rest, id);
      forall k | 0 <= k < |t| ensures t[k].id != head.id {
        assert t[k] in t;
      }
    }
  }

  lemma {:induction false} WithoutSize(entries: Entries, id: string)
    requires DistinctIds(entries) && Has(entries, id)
    ensures |Without(entries, id)| == |entries| - 1
  {
    var head, rest := entries[0], entries[1..];
    assert entries == [head] + rest;
    if head.id == id {
      assert !Has(rest, id);
      WithoutMissing(rest, id);
    } else {
      assert Has(rest, id);
      WithoutSize(rest, id);
    }
  }

  lemma WithoutFacts(entries: Entries, id: string)
    requires DistinctIds(entries)
    ensures DistinctIds(Without(entries, id))
    ensures |Without(entries, id)| == |entries| - (if Has(entries, id) then 1 else 0)
    ensures !Has(entries, id) ==> Without(entries, id) == entries
  {
    WithoutDistinct(entries, id);
    if Has(entries, id) {
      WithoutSize(entries, id);
    } else {
      WithoutMissing(entries, id);
    }
  }

  // ----- Sorting -----

  function InsertMessage(rank: Collation, m: Message, sorted: seq<Message>): seq<Message> {
    if sorted == [] then [m]
    else if Before(rank, m, sorted[0]) then [m] + sorted
    else [sorted[0]] + InsertMessage(rank, m, sorted[1..])
  }

  /** [...messages].sort(compareChatMessages) */
  function SortMessages(rank: Collation, messages: seq<Message>): seq<Message> {
    if messages == [] then []
    else InsertMessage(rank, messages[|messages| - 1], SortMessages(rank, messages[..|messages| - 1]))
  }

  ghost predicate Ascending(rank: Collation, s: seq<Message>) {
    forall i, j :: 0 <= i < j < |s| ==> Before(rank, s[i], s[j])
  }

  /** On messages with different ids the comparison is a strict total order. */
  lemma BeforeIsTotal(rank: Collation, a: Message, b: Message)
    requires Orders(rank) && a.id != b.id
    ensures Before(rank, a, b) <==> !Before(rank, b, a)
    ensures Before(rank, a, b) <==> CompareMessages(rank, b, a) > 0
  {
    assert rank(a.id) != rank(b.id);
  }

  lemma {:induction false} InsertFacts(rank: Collation, m: Message, sorted: seq<Message>)
    requires Orders(rank) && Ascending(rank, sorted)
    requires forall x :: x in sorted ==> x.id != m.id
    ensures Ascending(rank, InsertMessage(rank, m, sorted))
    ensures forall x :: x in InsertMessage(rank, m, sorted) <==> x == m || x in sorted
    ensures |InsertMessage(rank, m, sorted)| == |sorted| + 1
  {
    hide CompareMessages;
    if sorted != [] {
      var head, rest := sorted[0], sorted[1..];
      assert sorted == [head] + rest;
      if Before(rank, m, head) {
        forall k | 0 <= k < |sorted| ensures Before(rank, m, sorted[k]) {
          BeforeTransitive(rank, m, head, sorted[k]);
        }
      } else {
        assert head in sorted;
        BeforeIsTotal(rank, m, head);
        InsertFacts(rank, m, rest);
        var t := InsertMessage(rank, m, rest);
        forall k | 0 <= k < |t| ensures Before(rank, head, t[k]) {
          assert t[k] in t;
          assert t[k] == m || t[k] in rest;
        }
      }
    }
  }

  lemma BeforeTransitive(rank: Collation, a: Message, b: Message, c: Message)
    requires Before(rank, a, b)
    ensures b == c || Before(rank, b, c) ==> Before(rank, a, c)
  {
  }

  lemma {:induction false} SortFacts(rank: Collation, messages: seq<Message>)
    requires Orders(rank) && DistinctIds(messages)
    ensures Ascending(rank, SortMessages(rank, messages))
    ensures forall x :: x in SortMessages(rank, messages) <==> x in messages
    ensures |SortMessages(rank, messages)| == |messages|
  {
    if messages != [] {
      var init, last := messages[..|messages| - 1], messages[|messages| - 1];
      assert messages == init + [last];
      SortFacts(rank, init);
      forall x | x in SortMessages(rank, init) ensures x.id != last.id {
        assert x in init;
      }
      InsertFacts(rank, last, SortMessages(rank, init));
    }
  }

  /** A set of messages has one ascending order. */
  lemma {:induction false} AscendingIsUnique(rank: Collation, a: seq<Message>, b: seq<Message>)
    requires Ascending(rank, a) && Ascending(rank, b)
    requires forall x :: x in a <==> x in b
    ensures a == b
  {
    hide CompareMessages;
    if a == [] {
      assert forall i :: 0 <= i < |b| ==> b[i] in b;
    } else {
      assert a[0] in b;
      assert b[0] in a;
      NotBeforeItself(rank, a, b);
      var restA, restB := a[1..], b[1..];
      forall x ensures x in restA <==> x in restB {
        InRest(rank, a, x);
        InRest(rank, b, x);
      }
      AscendingIsUnique(rank, restA, restB);
      assert a == [a[0]] + restA && b == [b[0]] + restB;
    }
  }

  lemma NotBeforeItself(rank: Collation, a: seq<Message>, b: seq<Message>)
    requires Ascending(rank, a) && Ascending(rank, b) && a != [] && b != []
    requires a[0] in b && b[0] in a
    ensures a[0] == b[0]
  {
    var i :| 0 <= i < |b| && b[i] == a[0];
    var j :| 0 <= j < |a| && a[j] == b[0];
    assert i > 0 ==> Before(rank, b[0], a[0]);
    assert j > 0 ==> Before(rank, a[0], b[0]);
  }

  lemma InRest(rank: Collation, s: seq<Message>, x: Message)
    requires Ascending(rank, s) && s != []
    ensures x in s[1..] <==> x in s && x != s[0]
  {
    assert s == [s[0]] + s[1..];
    if x in s[1..] {
      var k :| 0 <= k < |s| - 1 && s[1..][k] == x;
      assert Before(rank, s[0], s[k + 1]);
    }
  }

  /** An ascending list of exactly the map's messages is the sorted map. */
  lemma SortedIs(rank: Collation, entries: Entries, s: seq<Message>)
    requires Orders(rank) && DistinctIds(entries) && Ascending(rank, s)
    requires forall x :: x in s <==> x in entries
    ensures SortMessages(rank, entries) == s
  {
    SortFacts(rank, entries);
    AscendingIsUnique(rank, SortMessages(rank, entries), s);
  }

  /** Every message was sent before those that come behind it. */
  ghost predicate OldestFirst(rank: Collation, s: seq<Message>) {
    forall i, j :: 0 <= i < j < |s| ==> Earlier(rank, s[i], s[j])
  }

  /** Sorting lists the map's messages, each once, the oldest first. */
  lemma SortIsOldestFirst(rank: Collation, messages: seq<Message>)
    requires Orders(rank) && DistinctIds(messages)
    ensures OldestFirst(rank, SortMessages(rank, messages))
    ensures forall x :: x in SortMessages(rank, messages) <==> x in messages
    ensures |SortMessages(rank, messages)| == |messages|
  {
    hide SortMessages, CompareMessages, Earlier;
    SortFacts(rank, messages);
    var s := SortMessages(rank, messages);
    forall i, j | 0 <= i < j < |s| ensures Earlier(rank, s[i], s[j]) {
      assert Before(rank, s[i], s[j]);
    }
  }

  // ----- Reconciling -----

  function Reconcile(entries: Entries, incoming: seq<Message>): Entries {
    if incoming == [] then entries
    else Upsert(Reconcile(entries, incoming[..|incoming| - 1]), incoming[|incoming| - 1])
  }

  /** The last message of the batch with this id. */
  function LastWithId(incoming: seq<Message>, id: string): (r: Option<Message>)
    ensures r.Some? ==> r.value in incoming && r.value.id == id
    ensures r.None? ==> !Has(incoming, id)
  {
    if incoming == [] then None
    else if incoming[|incoming| - 1].id == id then Some(incoming[|incoming| - 1])
    else
      assert incoming == incoming[..|incoming| - 1] + [incoming[|incoming| - 1]];
      LastWithId(incoming[..|incoming| - 1], id)
  }

  lemma {:induction false} LookupUnique(entries: Entries, m: Message)
    requires DistinctIds(entries) && m in entries
    ensures Lookup(entries, m.id) == Some(m)
  {
    if entries[0].id == m.id {
      var i :| 0 <= i < |entries| && entries[i] == m;
    } else {
      LookupUnique(entries[1..], m);
    }
  }

  /** After reconciling, each id holds its last incoming message, or what it held before. */
  lemma {:induction false} ReconcileLookup(entries: Entries, incoming: seq<Message>, id: string)
    requires DistinctIds(entries)
    ensures DistinctIds(Reconcile(entries, incoming))
    ensures Lookup(Reconcile(entries, incoming), id) ==
              if LastWithId(incoming, id).Some? then LastWithId(incoming, id) else Lookup(entries, id)
    ensures |Reconcile(entries, incoming)| >= |entries|
  {
    if incoming != [] {
      var init, last := incoming[..|incoming| - 1], incoming[|incoming| - 1];
      ReconcileLookup(entries, init, id);
      var before := Reconcile(entries, init);
      UpsertFacts(before, last);
      var after := Upsert(before, last);
      if last.id == id {
        LookupUnique(after, last);
      } else if Lookup(before, id).Some? {
        LookupUnique(after, Lookup(before, id).value);
      } else {
        assert Has(after, id) ==> Has(before, id);
      }
    }
  }

  lemma HasFewer(some: Entries, all: Entries, id: string)
    requires forall x :: x in some ==> x in all
    ensures Has(some, id) ==> Has(all, id)
  {
  }

  /** Deleting a set of ids, in any order. */
  function WithoutAll(entries: Entries, ids: seq<string>): Entries {
    if ids == [] then entries else Without(WithoutAll(entries, ids[..|ids| - 1]), ids[|ids| - 1])
  }

  lemma {:induction false} WithoutAllFacts(entries: Entries, ids: seq<string>)
    requires DistinctIds(entries)
    ensures DistinctIds(WithoutAll(entries, ids))
    ensures forall x :: x in WithoutAll(entries, ids) <==> x in entries && x.id !in ids
  {
    if ids != [] {
      var init, last := ids[..|ids| - 1], ids[|ids| - 1];
      assert ids == init + [last];
      WithoutAllFacts(entries, init);
      WithoutFacts(WithoutAll(entries, init), last);
    }
  }

  /** The ids known before the request that the snapshot no longer contains. */
  function Vanished(known: seq<string>, snapshot: seq<Message>): (r: seq<string>)
    ensures forall id :: id in r <==> id in known && !Has(snapshot, id)
  {
    if known == [] then []
    else if Has(snapshot, known[0]) then Vanished(known[1..], snapshot)
    else [known[0]] + Vanished(known[1..], snapshot)
  }

  function ReconcileSnapshot(entries: Entries, snapshot: seq<Message>, known: seq<string>): Entries {
    Reconcile(WithoutAll(entries, Vanished(known, snapshot)), snapshot)
  }

  /**
   After a snapshot each id holds the snapshot's message; an id the snapshot lacks is gone if it was
   known before the request, and keeps its message if it arrived while the request was under way.
   */
  lemma SnapshotLookup(entries: Entries, snapshot: seq<Message>, known: seq<string>, id: string)
    requires DistinctIds(entries)
    ensures DistinctIds(ReconcileSnapshot(entries, snapshot, known))
    ensures Lookup(ReconcileSnapshot(entries, snapshot, known), id) ==
              if LastWithId(snapshot, id).Some? then LastWithId(snapshot, id)
              else if id in known then None
              else Lookup(entries, id)
  {
    var kept := WithoutAll(entries, Vanished(known, snapshot));
    WithoutAllFacts(entries, Vanished(known, snapshot));
    ReconcileLookup(kept, snapshot, id);
    if LastWithId(snapshot, id).None? && id !in known {
      if Lookup(entries, id).Some? {
        LookupUnique(kept, Lookup(entries, id).value);
      } else {
        HasFewer(kept, entries, id);
      }
    }
  }

  // ----- Trimming -----

  /** The scan for the oldest message: an earlier one wins only if it compares strictly smaller. */
  function Oldest(rank: Collation, entries: Entries): (m: Message)
    requires entries != []
    ensures m in entries
  {
    if |entries| == 1 then entries[0]
    else
      var best := Oldest(rank, entries[..|entries| - 1]);
      var last := entries[|entries| - 1];
      if Before(rank, last, best) then last else best
  }

  lemma {:induction false} OldestIsFirst(rank: Collation, entries: Entries)
    requires Orders(rank) && DistinctIds(entries) && entries != []
    ensures forall x :: x in entries && x != Oldest(rank, entries) ==> Before(rank, Oldest(rank, entries), x)
  {
    hide CompareMessages;
    if |entries| > 1 {
      var init, last := entries[..|entries| - 1], entries[|entries| - 1];
      assert entries == init + [last];
      OldestIsFirst(rank, init);
      var best := Oldest(rank, init);
      BeforeIsTotal(rank, last, best);
      forall x | x in entries && x != Oldest(rank, entries) ensures Before(rank, Oldest(rank, entries), x) {
        if Before(rank, last, best) {
          BeforeTransitive(rank, last, best, x);
        }
      }
    }
  }

  datatype Trimmed = Trimmed(removed: seq<Message>, kept: Entries)

  /** Deletes the oldest message while there are more than the limit. */
  function Trim(rank: Collation, entries: Entries, limit: int): Trimmed
    decreases |entries|
  {
    if |entries| <= limit || entries == [] then Trimmed([], entries)
    else
      var oldest := Oldest(rank, entries);
      assert Has(entries, oldest.id);
      var rest := Trim(rank, Without(entries, oldest.id), limit);
      Trimmed([oldest] + rest.removed, rest.kept)
  }

  function Ids(messages: seq<Message>): (r: seq<string>)
    ensures |r| == |messages| && forall i :: 0 <= i < |r| ==> r[i] == messages[i].id
  {
    seq(|messages|, i requires 0 <= i < |messages| => messages[i].id)
  }

  lemma AscendingCons(rank: Collation, first: Message, rest: seq<Message>)
    requires Ascending(rank, rest) && forall x :: x in rest ==> Before(rank, first, x)
    ensures Ascending(rank, [first] + rest)
  {
    hide Before;
    var s := [first] + rest;
    forall i, j | 0 <= i < j < |s| ensures Before(rank, s[i], s[j]) {
      assert s[j] == rest[j - 1] && s[j] in rest;
      assert i > 0 ==> s[i] == rest[i - 1];
    }
  }

  lemma SameId(entries: Entries, a: Message, b: Message)
    requires DistinctIds(entries) && a in entries && b in entries && a.id == b.id
    ensures a == b
  {
    LookupUnique(entries, a);
    LookupUnique(entries, b);
  }

  /** The sorted order is its oldest message followed by the sorted order of the others. */
  lemma SortFromOldest(rank: Collation, entries: Entries)
    requires Orders(rank) && DistinctIds(entries) && entries != []
    ensures var oldest := Oldest(rank, entries);
            SortMessages(rank, entries) == [oldest] + SortMessages(rank, Without(entries, oldest.id))
  {
    hide Before, DistinctIds, Ascending, SortMessages, Oldest, Without;
    var oldest := Oldest(rank, entries);
    var rest := Without(entries, oldest.id);
    WithoutFacts(entries, oldest.id);
    OldestIsFirst(rank, entries);
    SortFacts(rank, rest);
    AscendingCons(rank, oldest, SortMessages(rank, rest));
    var s := [oldest] + SortMessages(rank, rest);
    forall x ensures x in s <==> x in entries {
      if x in entries && x.id == oldest.id {
        SameId(entries, x, oldest);
      }
    }
    SortedIs(rank, entries, s);
  }

  /**
   Trimming splits the sorted order: what was removed, in the order it was removed, followed by the
   sorted rest is the sorted whole, and the rest is as large as the limit allows.
   */
  lemma {:induction false} TrimSplitsSort(rank: Collation, entries: Entries, limit: int)
    requires Orders(rank) && DistinctIds(entries)
    ensures var t := Trim(rank, entries, limit);
            && DistinctIds(t.kept)
            && SortMessages(rank, entries) == t.removed + SortMessages(rank, t.kept)
            && |t.kept| == Min(|entries|, Max(limit, 0))
            && (forall x :: x in t.kept ==> x in entries)
    decreases |entries|
  {
    if |entries| > limit && entries != [] {
      var oldest := Oldest(rank, entries);
      var rest := Without(entries, oldest.id);
      assert Has(entries, oldest.id);
      WithoutFacts(entries, oldest.id);
      TrimSplitsSort(rank, rest, limit);
      SortFromOldest(rank, entries);
    }
  }

  /** What is trimmed away is older than everything that is kept. */
  lemma TrimRemovesOldest(rank: Collation, entries: Entries, limit: int, gone: Message, kept: Message)
    requires Orders(rank) && DistinctIds(entries)
    requires gone in Trim(rank, entries, limit).removed && kept in Trim(rank, entries, limit).kept
    ensures Earlier(rank, gone, kept)
    ensures gone in entries && kept in entries && gone.id != kept.id
  {
    hide SortMessages, Trim, Earlier, CompareMessages;
    var t := Trim(rank, entries, limit);
    TrimSplitsSort(rank, entries, limit);
    SortFacts(rank, t.kept);
    SortIsOldestFirst(rank, entries);
    var s, rest := SortMessages(rank, entries), SortMessages(rank, t.kept);
    var i :| 0 <= i < |t.removed| && t.removed[i] == gone;
    var j :| 0 <= j < |rest| && rest[j] == kept;
    assert s[i] == gone && s[|t.removed| + j] == kept;
    assert gone in s;
    if gone.id == kept.id {
      SameId(entries, gone, kept);
      NotEarlier(rank, gone);
    }
  }

  lemma NotEarlier(rank: Collation, m: Message)
    ensures !Earlier(rank, m, m)
  {
  }

  // ----- The collection as an object -----

  class MessageMap {
    var entries: Entries

    constructor ()
      ensures entries == []
    {
      entries := [];
    }

    method Set(m: Message)
      modifies this
      ensures entries == Upsert(old(entries), m)
    {
      entries := Upsert(entries, m);
    }

    method Delete(id: string)
      modifies this
      ensures entries == Without(old(entries), id)
    {
      entries := Without(entries, id);
    }
  }

  method ReconcileChatMessages(messages: MessageMap, incoming: seq<Message>) returns (added: nat)
    requires DistinctIds(messages.entries)
    modifies messages
    ensures messages.entries == Reconcile(old(messages.entries), incoming)
    ensures added == |messages.entries| - |old(messages.entries)|
  {
    added := 0;
    for i := 0 to |incoming|
      invariant DistinctIds(messages.entries)
      invariant messages.entries == Reconcile(old(messages.entries), incoming[..i])
      invariant added == |messages.entries| - |old(messages.entries)|
    {
      assert incoming[..i + 1][..i] == incoming[..i];
      UpsertFacts(messages.entries, incoming[i]);
      if !Has(messages.entries, incoming[i].id) {
        added := added + 1;
      }
      messages.Set(incoming[i]);
    }
    assert incoming[..|incoming|] == incoming;
  }

  method ReconcileChatSnapshot(messages: MessageMap, snapshot: seq<Message>, knownBeforeRequest: seq<string>)
    returns (added: nat)
    requires DistinctIds(messages.entries)
    modifies messages
    ensures messages.entries == ReconcileSnapshot(old(messages.entries), snapshot, knownBeforeRequest)
    ensures added == |messages.entries| - |WithoutAll(old(messages.entries), Vanished(knownBeforeRequest, snapshot))|
  {
    var vanished := Vanished(knownBeforeRequest, snapshot);
    for i := 0 to |vanished|
      invariant messages.entries == WithoutAll(old(messages.entries), vanished[..i])
    {
      assert vanished[..i + 1][..i] == vanished[..i];
      messages.Delete(vanished[i]);
    }
    assert vanished[..|vanished|] == vanished;
    WithoutAllFacts(old(messages.entries), vanished);
    added := ReconcileChatMessages(messages, snapshot);
  }

  /** The early-exit scan: no message with another id comes after the candidate. */
  method IsLatestChatMessage(rank: Collation, messages: seq<Message>, candidate: Message) returns (latest: bool)
    ensures latest <==> Latest(rank, messages, candidate)
    ensures latest <==> forall m :: m in messages && m.id != candidate.id ==> !Earlier(rank, candidate, m)
  {
    for i := 0 to |messages|
      invariant Latest(rank, messages[..i], candidate)
    {
      var message := messages[i];
      if message.id != candidate.id && CompareMessages(rank, message, candidate) > 0 {
        assert message in messages;
        return false;
      }
      assert messages[..i + 1] == messages[..i] + [message];
    }
    assert messages[..|messages|] == messages;
    return true;
  }

  ghost predicate Latest(rank: Collation, messages: seq<Message>, candidate: Message) {
    forall m :: m in messages && m.id != candidate.id ==> CompareMessages(rank, m, candidate) <= 0
  }

  method FindOldest(rank: Collation, entries: Entries) returns (oldest: Option<Message>)
    ensures oldest == if entries == [] then None else Some(Oldest(rank, entries))
  {
    oldest := None;
    for i := 0 to |entries|
      invariant oldest == if i == 0 then None else Some(Oldest(rank, entries[..i]))
    {
      assert entries[..i + 1][..i] == entries[..i];
      if oldest.None? || Before(rank, entries[i], oldest.value) {
        oldest := Some(entries[i]);
      }
    }
    assert entries[..|entries|] == entries;
  }

  /** One round of the loop; with nothing to delete, nothing changes. */
  lemma TrimStep(rank: Collation, entries: Entries, limit: int)
    ensures if |entries| <= limit || entries == [] then Trim(rank, entries, limit) == Trimmed([], entries)
            else var oldest := Oldest(rank, entries);
                 var rest := Without(entries, oldest.id);
                 && |rest| < |entries|
                 && Trim(rank, entries, limit)
                    == Trimmed([oldest] + Trim(rank, rest, limit).removed, Trim(rank, rest, limit).kept)
  {
    if entries != [] {
      assert Has(entries, Oldest(rank, entries).id);
    }
  }

  method TrimOldestChatMessages(rank: Collation, messages: MessageMap, limit: int) returns (removed: seq<string>)
    modifies messages
    ensures messages.entries == Trim(rank, old(messages.entries), limit).kept
    ensures removed == Ids(Trim(rank, old(messages.entries), limit).removed)
  {
    hide Trim, Oldest, Without;
    removed := [];
    ghost var all := Trim(rank, messages.entries, limit);
    ghost var gone: seq<Message> := [];
    while |messages.entries| > limit
      invariant removed == Ids(gone)
      invariant all == Trimmed(gone + Trim(rank, messages.entries, limit).removed,
                               Trim(rank, messages.entries, limit).kept)
      decreases |messages.entries|
    {
      TrimStep(rank, messages.entries, limit);
      var oldest := FindOldest(rank, messages.entries);
      if oldest.None? {
        break;
      }
      ghost var next := Trim(rank, Without(messages.entries, oldest.value.id), limit);
      assert gone + ([oldest.value] + next.removed) == (gone + [oldest.value]) + next.removed;
      messages.Delete(oldest.value.id);
      removed := removed + [oldest.value.id];
      gone := gone + [oldest.value];
    }
    TrimStep(rank, messages.entries, limit);
    assert gone + [] == gone;
  }
}

/**
 The rendered message rows and the public-message handler: a full render sorts the whole map, the
 append path adds one row and drops surplus ones from the front, and the two must agree.
 */
module ChatView {
  import opened Wrappers
  import opened ChatState

  const PUBLIC_MESSAGE_LIMIT := 1000

  /** The render key serialises the message together with what else its row shows. */
  datatype RenderKey = RenderKey(message: Message, context: string)

  datatype Row = Row(id: string, key: RenderKey)

  /** What a row shows besides its message (an edit draft, a reply preview) when it is rendered now. */
  type Context = Message -> string

  function KeyOf(m: Message, context: Context): RenderKey {
    RenderKey(m, context(m))
  }

  function RowOf(m: Message, context: Context): Row {
    Row(m.id, KeyOf(m, context))
  }

  function RowsOf(messages: seq<Message>, context: Context): (r: seq<Row>)
    ensures |r| == |messages| && forall i :: 0 <= i < |r| ==> r[i] == RowOf(messages[i], context)
  {
    if messages == [] then []
    else RowsOf(messages[..|messages| - 1], context) + [RowOf(messages[|messages| - 1], context)]
  }

  /** The row on display for an id. */
  function FindRow(rows: seq<Row>, id: string): (r: Option<Row>)
    ensures r.Some? ==> r.value in rows && r.value.id == id
    ensures r.None? ==> forall row :: row in rows ==> row.id != id
  {
    if rows == [] then None
    else if rows[0].id == id then Some(rows[0])
    else FindRow(rows[1..], id)
  }

  // ----- The two paths -----

  /** The rows of a full render. */
  function Rendered(rank: Collation, entries: Entries, context: Context): seq<Row> {
    RowsOf(SortMessages(rank, entries), context)
  }

  /** Removing rows from the front until there are no more than the map has messages. */
  function DropSurplus(rows: seq<Row>, size: nat): seq<Row> {
    if |rows| > size then rows[|rows| - size..] else rows
  }

  datatype Attempt = Attempt(rows: seq<Row>, done: bool)

  ghost function TryAppend(rank: Collation, rows: seq<Row>, entries: Entries, m: Message, context: Context): Attempt {
    var existing := FindRow(rows, m.id);
    if existing.Some? then Attempt(rows, existing.value.key == KeyOf(m, context))
    else if !Latest(rank, entries, m) then Attempt(rows, false)
    else Attempt(DropSurplus(rows + [RowOf(m, context)], |entries|), true)
  }

  /** The map after a public message event. */
  function Received(rank: Collation, entries: Entries, m: Message, limit: int): Entries {
    var reconciled := if m.cleared then entries else Upsert(entries, m);
    var trimmed := Trim(rank, reconciled, limit).kept;
    if m.cleared then Without(trimmed, m.id) else trimmed
  }

  /** The rows after a public message event, while the public conversation is shown. */
  ghost function Shown(rank: Collation, rows: seq<Row>, entries: Entries, m: Message, context: Context): seq<Row> {
    var attempt := TryAppend(rank, rows, entries, m, context);
    if attempt.done then attempt.rows else Rendered(rank, entries, context)
  }

  // ----- The component -----

  class LocalChat {
    const publicMessages: MessageMap
    var rows: seq<Row>
    var selectedRecipientId: Option<string>

    constructor ()
      ensures fresh(publicMessages) && publicMessages.entries == [] && rows == [] && selectedRecipientId == None
    {
      publicMessages := new MessageMap();
      rows := [];
      selectedRecipientId := None;
    }

    /** Rebuilds the rows from the sorted map, keeping a displayed row whose key has not changed. */
    method Render(rank: Collation, context: Context)
      modifies this`rows
      ensures rows == Rendered(rank, publicMessages.entries, context)
    {
      var existingRows := rows;
      var sortedMessages := SortMessages(rank, publicMessages.entries);
      var rebuilt: seq<Row> := [];
      for i := 0 to |sortedMessages|
        invariant rebuilt == RowsOf(sortedMessages[..i], context)
      {
        var message := sortedMessages[i];
        assert sortedMessages[..i + 1][..i] == sortedMessages[..i];
        var existing := FindRow(existingRows, message.id);
        var row := if existing.Some? && existing.value.key == KeyOf(message, context)
                   then existing.value else RowOf(message, context);
        rebuilt := rebuilt + [row];
      }
      assert sortedMessages[..|sortedMessages|] == sortedMessages;
      rows := rebuilt;
    }

    /** The append path: true when the rows need no full render. */
    method RenderLatestAppend(rank: Collation, m: Message, context: Context) returns (done: bool)
      modifies this`rows
      ensures Attempt(rows, done) == TryAppend(rank, old(rows), publicMessages.entries, m, context)
    {
      var existing := FindRow(rows, m.id);
      if existing.Some? {
        return existing.value.key == KeyOf(m, context);
      }
      var latest := IsLatestChatMessage(rank, publicMessages.entries, m);
      if !latest {
        return false;
      }
      rows := rows + [RowOf(m, context)];
      ghost var all := rows;
      while |rows| > |publicMessages.entries|
        invariant |rows| <= |all| && rows == all[|all| - |rows|..]
        invariant |rows| < |all| ==> |rows| >= |publicMessages.entries|
        decreases |rows|
      {
        rows := rows[1..];
      }
      return true;
    }

    /** The public branch of the message event handler. */
    method OnPublicMessage(rank: Collation, m: Message, context: Context)
      requires DistinctIds(publicMessages.entries)
      modifies this`rows, publicMessages
      ensures publicMessages.entries == Received(rank, old(publicMessages.entries), m, PUBLIC_MESSAGE_LIMIT)
      ensures rows == if selectedRecipientId.Some? then old(rows)
                      else Shown(rank, old(rows), publicMessages.entries, m, context)
    {
      if !m.cleared {
        ghost var before := publicMessages.entries;
        var added := ReconcileChatMessages(publicMessages, [m]);
        assert Reconcile(before, [m]) == Upsert(Reconcile(before, []), m) by { assert [m][..0] == []; }
      }
      var removed := TrimOldestChatMessages(rank, publicMessages, PUBLIC_MESSAGE_LIMIT);
      if m.cleared {
        publicMessages.Delete(m.id);
      }
      if selectedRecipientId.None? {
        var done := RenderLatestAppend(rank, m, context);
        if !done {
          Render(rank, context);
        }
      }
    }
  }

  // ----- Agreement -----

  /** The rows show these messages, each as it is now, in this order. */
  ghost predicate Shows(rows: seq<Row>, messages: seq<Message>) {
    && |rows| == |messages|
    && forall i :: 0 <= i < |rows| ==> rows[i].id == messages[i].id && rows[i].key.message == messages[i]
  }

  /** The rows show exactly the map's messages in sorted order. */
  ghost predicate Faithful(rank: Collation, rows: seq<Row>, entries: Entries) {
    Shows(rows, SortMessages(rank, entries))
  }

  lemma ShowsOneMore(rows: seq<Row>, messages: seq<Message>, m: Message, context: Context, size: nat)
    requires Shows(rows, messages) && size <= |messages| + 1
    ensures Shows(DropSurplus(rows + [RowOf(m, context)], size), (messages + [m])[|messages| + 1 - size..])
  {
  }

  lemma RenderedIsFaithful(rank: Collation, entries: Entries, context: Context)
    ensures Faithful(rank, Rendered(rank, entries, context), entries)
  {
  }

  /** A full render shows every message as it is now, with whatever else its row shows now. */
  lemma RenderedIsCurrent(rank: Collation, entries: Entries, context: Context, i: nat)
    requires i < |SortMessages(rank, entries)|
    ensures var rows, m := Rendered(rank, entries, context), SortMessages(rank, entries)[i];
            |rows| == |SortMessages(rank, entries)| && rows[i] == Row(m.id, RenderKey(m, context(m)))
  {
  }

  /** Which messages have rows. */
  lemma FaithfulRow(rank: Collation, rows: seq<Row>, entries: Entries, id: string)
    requires Orders(rank) && DistinctIds(entries) && Faithful(rank, rows, entries)
    ensures FindRow(rows, id).Some? <==> Has(entries, id)
    ensures FindRow(rows, id).Some? ==> Lookup(entries, id) == Some(FindRow(rows, id).value.key.message)
  {
    hide CompareMessages, SortMessages;
    SortFacts(rank, entries);
    var sorted := SortMessages(rank, entries);
    if FindRow(rows, id).Some? {
      var i :| 0 <= i < |rows| && rows[i] == FindRow(rows, id).value;
      assert sorted[i] in entries;
      LookupUnique(entries, sorted[i]);
    }
    if Has(entries, id) {
      var m :| m in entries && m.id == id;
      assert m in sorted;
      var i :| 0 <= i < |sorted| && sorted[i] == m;
      assert rows[i] in rows;
    }
  }

  /** Setting a message the map already holds changes nothing. */
  lemma {:induction false} UpsertSame(entries: Entries, m: Message)
    requires DistinctIds(entries) && m in entries
    ensures Upsert(entries, m) == entries
  {
    if entries[0].id == m.id {
      LookupUnique(entries, m);
    } else {
      UpsertSame(entries[1..], m);
    }
  }

  /** A latest newcomer goes to the end of the sorted order. */
  lemma SortWithLatest(rank: Collation, entries: Entries, m: Message)
    requires Orders(rank) && DistinctIds(entries) && !Has(entries, m.id)
    requires Latest(rank, entries, m)
    ensures SortMessages(rank, entries + [m]) == SortMessages(rank, entries) + [m]
  {
    hide CompareMessages;
    SortFacts(rank, entries);
    var s := SortMessages(rank, entries) + [m];
    assert Ascending(rank, s) by {
      forall i | 0 <= i < |s| - 1 ensures Before(rank, s[i], m) {
        assert s[i] in SortMessages(rank, entries);
        assert s[i] in entries;
        BeforeIsTotal(rank, s[i], m);
        BeforeIsTotal(rank, m, s[i]);
      }
    }
    SortedIs(rank, entries + [m], s);
  }

  /** Trimming a map that is over its limit by one drops the first of the sorted order. */
  lemma TrimByOne(rank: Collation, entries: Entries, limit: nat)
    requires Orders(rank) && DistinctIds(entries) && |entries| == limit + 1
    ensures var kept := Trim(rank, entries, limit).kept;
            && DistinctIds(kept) && |kept| == limit
            && SortMessages(rank, kept) == SortMessages(rank, entries)[1..]
            && kept == Without(entries, Oldest(rank, entries).id)
  {
    hide CompareMessages, SortMessages;
    var oldest := Oldest(rank, entries);
    assert Has(entries, oldest.id);
    WithoutFacts(entries, oldest.id);
    SortFromOldest(rank, entries);
  }

  /** Latest among the kept messages is latest among all of them, unless it was trimmed itself. */
  lemma LatestBeforeTrim(rank: Collation, entries: Entries, m: Message, limit: nat)
    requires Orders(rank) && DistinctIds(entries + [m]) && |entries| == limit
    requires var kept := Trim(rank, entries + [m], limit).kept;
             m in kept && Latest(rank, kept, m)
    ensures Latest(rank, entries, m)
  {
    hide CompareMessages, SortMessages;
    var all := entries + [m];
    TrimByOne(rank, all, limit);
    OldestIsFirst(rank, all);
    var oldest := Oldest(rank, all);
    assert oldest != m;
    forall x | x in entries && x.id != m.id ensures CompareMessages(rank, x, m) <= 0 {
      if x.id == oldest.id {
        assert x in all;
        LookupUnique(all, x);
        LookupUnique(all, oldest);
        BeforeIsTotal(rank, m, x);
      } else {
        assert x in Trim(rank, all, limit).kept;
      }
    }
  }

  /** A newcomer that is trimmed away at once is older than everything that stays. */
  lemma TrimmedNewcomerIsNotLatest(rank: Collation, entries: Entries, m: Message, limit: nat)
    requires Orders(rank) && DistinctIds(entries + [m]) && |entries| == limit && limit > 0
    requires m !in Trim(rank, entries + [m], limit).kept
    ensures Trim(rank, entries + [m], limit).kept == entries
    ensures !Latest(rank, entries, m)
  {
    hide CompareMessages, SortMessages;
    var all := entries + [m];
    assert all[limit] == m;
    TrimByOne(rank, all, limit);
    OldestIsFirst(rank, all);
    var oldest := Oldest(rank, all);
    assert m.id == oldest.id;
    LookupUnique(all, m);
    LookupUnique(all, oldest);
    assert entries[0] in all && entries[0].id != m.id;
    assert Before(rank, m, entries[0]);
    BeforeIsTotal(rank, m, entries[0]);
    WithoutLast(entries, m);
  }

  lemma {:induction false} WithoutLast(entries: Entries, m: Message)
    requires DistinctIds(entries + [m])
    ensures Without(entries + [m], m.id) == entries
  {
    if entries != [] {
      assert (entries + [m])[1..] == entries[1..] + [m];
      assert (entries + [m])[0] == entries[0] && (entries + [m])[|entries|] == m;
      WithoutLast(entries[1..], m);
    } else {
      assert [] + [m] == [m];
    }
  }

  /** Where a latest newcomer stands in the new sorted order, and what the trim takes away. */
  lemma NewcomerSort(rank: Collation, entries: Entries, m: Message, limit: nat)
    requires Orders(rank) && DistinctIds(entries) && |entries| <= limit
    requires !m.cleared && !Has(entries, m.id)
    requires var after := Received(rank, entries, m, limit); m in after && Latest(rank, after, m)
    ensures var after := Received(rank, entries, m, limit);
            var sorted := SortMessages(rank, entries);
            && |sorted| == |entries| && |after| <= |entries| + 1
            && SortMessages(rank, after) == (sorted + [m])[|entries| + 1 - |after|..]
  {
    hide CompareMessages, SortMessages, Latest, Trim, Upsert, Without, Oldest;
    UpsertFacts(entries, m);
    SortFacts(rank, entries);
    var all := entries + [m];
    if |entries| < limit {
      NoTrim(rank, all, limit);
      LatestAmongFewer(rank, entries, all, m);
    } else {
      LatestBeforeTrim(rank, entries, m, limit);
      TrimByOne(rank, all, limit);
    }
    SortWithLatest(rank, entries, m);
  }

  lemma LatestAmongFewer(rank: Collation, some: Entries, all: Entries, m: Message)
    requires Latest(rank, all, m) && forall x :: x in some ==> x in all
    ensures Latest(rank, some, m)
  {
    hide CompareMessages;
  }

  /** The append path refines the full render for a message with an id the map did not hold. */
  lemma NewcomerAppends(rank: Collation, rows: seq<Row>, entries: Entries, m: Message, context: Context, limit: nat)
    requires Orders(rank) && DistinctIds(entries) && Faithful(rank, rows, entries) && |entries| <= limit
    requires !m.cleared && !Has(entries, m.id)
    requires m in Received(rank, entries, m, limit)
    requires TryAppend(rank, rows, Received(rank, entries, m, limit), m, context).done
    ensures Faithful(rank, TryAppend(rank, rows, Received(rank, entries, m, limit), m, context).rows,
                     Received(rank, entries, m, limit))
  {
    hide CompareMessages, SortMessages, Latest, Received, DropSurplus;
    FaithfulRow(rank, rows, entries, m.id);
    NewcomerSort(rank, entries, m, limit);
    ShowsOneMore(rows, SortMessages(rank, entries), m, context, |Received(rank, entries, m, limit)|);
  }

  /** A message with an id on display is accepted as it is only when nothing about it has changed. */
  lemma UnchangedStays(rank: Collation, rows: seq<Row>, entries: Entries, m: Message, context: Context, limit: nat)
    requires Orders(rank) && DistinctIds(entries) && Faithful(rank, rows, entries) && |entries| <= limit
    requires !m.cleared && Has(entries, m.id)
    requires TryAppend(rank, rows, Received(rank, entries, m, limit), m, context).done
    ensures Faithful(rank, TryAppend(rank, rows, Received(rank, entries, m, limit), m, context).rows,
                     Received(rank, entries, m, limit))
  {
    hide CompareMessages, SortMessages;
    FaithfulRow(rank, rows, entries, m.id);
    UpsertSame(entries, m);
  }

  /**
   The append path refines the full render: from rows that show the sorted map, with the message in
   the map after reconciling and trimming, an append that reports success shows the new sorted map.
   */
  lemma AppendRefinesRender(rank: Collation, rows: seq<Row>, entries: Entries, m: Message, context: Context, limit: nat)
    requires Orders(rank) && DistinctIds(entries) && Faithful(rank, rows, entries) && |entries| <= limit
    requires !m.cleared && m in Received(rank, entries, m, limit)
    requires TryAppend(rank, rows, Received(rank, entries, m, limit), m, context).done
    ensures Faithful(rank, TryAppend(rank, rows, Received(rank, entries, m, limit), m, context).rows,
                     Received(rank, entries, m, limit))
  {
    hide *;
    if Has(entries, m.id) {
      UnchangedStays(rank, rows, entries, m, context, limit);
    } else {
      NewcomerAppends(rank, rows, entries, m, context, limit);
    }
  }

  // ----- The handler as a whole -----

  /**
   The events the handler mishandles: a cleared message that is already on display exactly so, or one
   the map never held that would sort behind everything in a map that is not empty.
   */
  ghost predicate Misleads(rank: Collation, rows: seq<Row>, entries: Entries, m: Message, context: Context) {
    && m.cleared
    && var existing := FindRow(rows, m.id);
       if existing.Some? then existing.value.key == KeyOf(m, context)
       else entries != [] && Latest(rank, entries, m)
  }

  lemma ReceivedFacts(rank: Collation, entries: Entries, m: Message, limit: nat)
    requires Orders(rank) && DistinctIds(entries) && |entries| <= limit
    ensures DistinctIds(Received(rank, entries, m, limit))
    ensures |Received(rank, entries, m, limit)| <= limit
    ensures m.cleared ==> Received(rank, entries, m, limit) == Without(entries, m.id)
  {
    UpsertFacts(entries, m);
    WithoutFacts(entries, m.id);
    TrimSplitsSort(rank, Upsert(entries, m), limit);
  }

  /** A newcomer that is trimmed away at once is not appended, unless nothing is kept at all. */
  lemma TrimmedIsNotAppended(rank: Collation, rows: seq<Row>, entries: Entries, m: Message, context: Context,
                             limit: nat)
    requires Orders(rank) && DistinctIds(entries) && Faithful(rank, rows, entries) && |entries| <= limit
    requires !m.cleared && !Has(entries, m.id) && m !in Received(rank, entries, m, limit) && limit > 0
    ensures !TryAppend(rank, rows, Received(rank, entries, m, limit), m, context).done
  {
    hide CompareMessages, SortMessages, Trim, Latest;
    UpsertFacts(entries, m);
    FaithfulRow(rank, rows, entries, m.id);
    assert (entries + [m])[|entries|] == m;
    if |entries| < limit {
      NoTrim(rank, entries + [m], limit);
    } else {
      TrimmedNewcomerIsNotLatest(rank, entries, m, limit);
    }
  }

  /** With nothing kept, whatever was appended is removed again. */
  lemma NothingKept(rank: Collation, rows: seq<Row>, entries: Entries, m: Message, context: Context)
    requires Orders(rank) && DistinctIds(entries) && Faithful(rank, rows, entries) && entries == []
    requires !m.cleared
    ensures Received(rank, entries, m, 0) == []
    ensures Faithful(rank, TryAppend(rank, rows, [], m, context).rows, [])
  {
    ReceivedFacts(rank, entries, m, 0);
    EmptySort(rank);
  }

  lemma NewcomerStays(rank: Collation, rows: seq<Row>, entries: Entries, m: Message, context: Context, limit: nat)
    requires Orders(rank) && DistinctIds(entries) && Faithful(rank, rows, entries) && |entries| <= limit
    requires !m.cleared && !Has(entries, m.id)
    requires TryAppend(rank, rows, Received(rank, entries, m, limit), m, context).done
    ensures Faithful(rank, TryAppend(rank, rows, Received(rank, entries, m, limit), m, context).rows,
                     Received(rank, entries, m, limit))
  {
    hide Faithful, Received, TryAppend, Has;
    if m in Received(rank, entries, m, limit) {
      NewcomerAppends(rank, rows, entries, m, context, limit);
    } else if limit == 0 {
      NothingKept(rank, rows, entries, m, context);
    } else {
      TrimmedIsNotAppended(rank, rows, entries, m, context, limit);
    }
  }

  lemma OrdinaryMessageStaysFaithful(rank: Collation, rows: seq<Row>, entries: Entries, m: Message,
                                     context: Context, limit: nat)
    requires Orders(rank) && DistinctIds(entries) && Faithful(rank, rows, entries) && |entries| <= limit
    requires !m.cleared
    ensures var after := Received(rank, entries, m, limit);
            Faithful(rank, Shown(rank, rows, after, m, context), after)
  {
    hide Faithful, Received, TryAppend, Rendered, Has;
    var after := Received(rank, entries, m, limit);
    RenderedIsFaithful(rank, after, context);
    if TryAppend(rank, rows, after, m, context).done {
      if Has(entries, m.id) {
        UnchangedStays(rank, rows, entries, m, context, limit);
      } else {
        NewcomerStays(rank, rows, entries, m, context, limit);
      }
    }
  }

  lemma NoTrim(rank: Collation, entries: Entries, limit: int)
    requires |entries| <= limit
    ensures Trim(rank, entries, limit) == Trimmed([], entries)
  {
  }

  lemma EmptySort(rank: Collation)
    ensures SortMessages(rank, []) == []
  {
  }

  /** A cleared message leaves the rows faithful exactly when it is not one of the mishandled ones. */
  lemma ClearedMessage(rank: Collation, rows: seq<Row>, entries: Entries, m: Message, context: Context, limit: nat)
    requires Orders(rank) && DistinctIds(entries) && Faithful(rank, rows, entries) && |entries| <= limit
    requires m.cleared
    ensures var after := Received(rank, entries, m, limit);
            Faithful(rank, Shown(rank, rows, after, m, context), after) <==> !Misleads(rank, rows, entries, m, context)
  {
    hide CompareMessages, SortMessages, Trim, Rendered;
    var after := Received(rank, entries, m, limit);
    ReceivedFacts(rank, entries, m, limit);
    RenderedIsFaithful(rank, after, context);
    FaithfulRow(rank, rows, entries, m.id);
    var shown := Shown(rank, rows, after, m, context);
    if FindRow(rows, m.id).Some? {
      if Faithful(rank, rows, after) {
        FaithfulRow(rank, rows, after, m.id);
      }
    } else {
      WithoutFacts(entries, m.id);
      assert after == entries;
      SortFacts(rank, entries);
      if Latest(rank, entries, m) {
        if entries == [] {
          EmptySort(rank);
        } else {
          assert shown[|shown| - 1] == RowOf(m, context);
          if Faithful(rank, shown, after) {
            FaithfulRow(rank, shown, after, m.id);
          }
        }
      }
    }
  }

  /**
   The handler keeps the rows equal to the sorted map if and only if the event is not one of those it
   mishandles.
   */
  lemma HandlerIsFaithfulExactly(rank: Collation, rows: seq<Row>, entries: Entries, m: Message, context: Context,
                                 limit: nat)
    requires Orders(rank) && DistinctIds(entries) && Faithful(rank, rows, entries) && |entries| <= limit
    ensures var after := Received(rank, entries, m, limit);
            Faithful(rank, Shown(rank, rows, after, m, context), after) <==> !Misleads(rank, rows, entries, m, context)
  {
    hide Faithful, Shown, Received;
    if m.cleared {
      ClearedMessage(rank, rows, entries, m, context, limit);
    } else {
      OrdinaryMessageStaysFaithful(rank, rows, entries, m, context, limit);
    }
  }

  /** The mishandled event is real: clearing a message the client never had replaces the shown one. */
  lemma ClearedStrangerTakesARow(rank: Collation, shown: Message, stranger: Message, context: Context)
    requires Orders(rank) && stranger.cleared && shown.id != stranger.id && !Before(rank, stranger, shown)
    ensures var after := Received(rank, [shown], stranger, PUBLIC_MESSAGE_LIMIT);
            && after == [shown]
            && Shown(rank, [RowOf(shown, context)], after, stranger, context) == [RowOf(stranger, context)]
  {
    hide CompareMessages;
    BeforeIsTotal(rank, shown, stranger);
    BeforeIsTotal(rank, stranger, shown);
    var after := Received(rank, [shown], stranger, PUBLIC_MESSAGE_LIMIT);
    assert after == [shown];
    var rows := [RowOf(shown, context)];
    assert FindRow(rows, stranger.id).None?;
    assert Latest(rank, after, stranger);
    assert DropSurplus(rows + [RowOf(stranger, context)], 1) == [RowOf(stranger, context)];
  }

  /** The other mishandled event: a cleared message the map holds, shown as it is, keeps its row. */
  lemma ClearedRowStays(rank: Collation, m: Message, context: Context)
    requires Orders(rank) && m.cleared
    ensures Faithful(rank, [RowOf(m, context)], [m])
    ensures var after := Received(rank, [m], m, PUBLIC_MESSAGE_LIMIT);
            after == [] && Shown(rank, [RowOf(m, context)], after, m, context) == [RowOf(m, context)]
  {
    hide CompareMessages;
    assert SortMessages(rank, [m]) == [m] by { SortFacts(rank, [m]); SortedIs(rank, [m], [m]); }
    NoTrim(rank, [m], PUBLIC_MESSAGE_LIMIT);
    assert FindRow([RowOf(m, context)], m.id) == Some(RowOf(m, context));
  }

  ghost predicate Uncleared(messages: seq<Message>) {
    forall m :: m in messages ==> !m.cleared
  }

  /** While the map holds no cleared message, only the stranger that sorts last is mishandled. */
  lemma OnlyStrangersMislead(rank: Collation, rows: seq<Row>, entries: Entries, m: Message, context: Context)
    requires Orders(rank) && DistinctIds(entries) && Faithful(rank, rows, entries) && Uncleared(entries)
    ensures Misleads(rank, rows, entries, m, context)
            <==> m.cleared && !Has(entries, m.id) && entries != [] && Latest(rank, entries, m)
  {
    hide Faithful, Latest;
    FaithfulRow(rank, rows, entries, m.id);
  }

  // ----- Runs -----

  /** What can happen to the public conversation while it is shown. */
  datatype ChatEvent =
    | MessageArrived(message: Message, context: Context)
    | Mutated(message: Message, context: Context)
    | HistoryLoaded(snapshot: seq<Message>, known: seq<string>, context: Context)
    | Cleared(context: Context)

  datatype View = View(rows: seq<Row>, entries: Entries)

  ghost function Handle(rank: Collation, v: View, e: ChatEvent): View {
    match e
    case MessageArrived(m, context) =>
      var after := Received(rank, v.entries, m, PUBLIC_MESSAGE_LIMIT);
      View(Shown(rank, v.rows, after, m, context), after)
    case Mutated(m, context) =>
      var after := Trim(rank, Upsert(v.entries, m), PUBLIC_MESSAGE_LIMIT).kept;
      View(Rendered(rank, after, context), after)
    case HistoryLoaded(snapshot, known, context) =>
      var after := Trim(rank, ReconcileSnapshot(v.entries, snapshot, known), PUBLIC_MESSAGE_LIMIT).kept;
      View(Rendered(rank, after, context), after)
    case Cleared(context) => View(Rendered(rank, [], context), [])
  }

  ghost function HandleAll(rank: Collation, v: View, events: seq<ChatEvent>): View {
    if events == [] then v else Handle(rank, HandleAll(rank, v, events[..|events| - 1]), events[|events| - 1])
  }

  ghost predicate Admitted(rank: Collation, v: View, e: ChatEvent) {
    e.MessageArrived? ==> !Misleads(rank, v.rows, v.entries, e.message, e.context)
  }

  ghost predicate GoodView(rank: Collation, v: View) {
    DistinctIds(v.entries) && |v.entries| <= PUBLIC_MESSAGE_LIMIT && Faithful(rank, v.rows, v.entries)
  }

  lemma HandleKeepsGood(rank: Collation, v: View, e: ChatEvent)
    requires Orders(rank) && GoodView(rank, v)
    ensures DistinctIds(Handle(rank, v, e).entries) && |Handle(rank, v, e).entries| <= PUBLIC_MESSAGE_LIMIT
    ensures GoodView(rank, Handle(rank, v, e)) <==> Admitted(rank, v, e)
  {
    hide Faithful, Shown, Received, Rendered, Trim, ReconcileSnapshot, Misleads, SortMessages;
    match e
    case MessageArrived(m, context) =>
      HandlerIsFaithfulExactly(rank, v.rows, v.entries, m, context, PUBLIC_MESSAGE_LIMIT);
      ReceivedFacts(rank, v.entries, m, PUBLIC_MESSAGE_LIMIT);
    case Mutated(m, context) =>
      UpsertFacts(v.entries, m);
      TrimSplitsSort(rank, Upsert(v.entries, m), PUBLIC_MESSAGE_LIMIT);
      RenderedIsFaithful(rank, Trim(rank, Upsert(v.entries, m), PUBLIC_MESSAGE_LIMIT).kept, context);
    case HistoryLoaded(snapshot, known, context) =>
      var reconciled := ReconcileSnapshot(v.entries, snapshot, known);
      SnapshotLookup(v.entries, snapshot, known, "");
      TrimSplitsSort(rank, reconciled, PUBLIC_MESSAGE_LIMIT);
      RenderedIsFaithful(rank, Trim(rank, reconciled, PUBLIC_MESSAGE_LIMIT).kept, context);
    case Cleared(context) =>
      RenderedIsFaithful(rank, [], context);
  }

  /** Over every run of admitted events the rows are the sorted map, and the map is within its limit. */
  lemma {:induction false} RunStaysFaithful(rank: Collation, v: View, events: seq<ChatEvent>)
    requires Orders(rank) && GoodView(rank, v)
    requires forall k :: 0 <= k < |events| ==> Admitted(rank, HandleAll(rank, v, events[..k]), events[k])
    ensures GoodView(rank, HandleAll(rank, v, events))
  {
    hide GoodView, Handle, Admitted;
    if events != [] {
      var init := events[..|events| - 1];
      forall k | 0 <= k < |init| ensures Admitted(rank, HandleAll(rank, v, init[..k]), init[k]) {
        assert init[..k] == events[..k];
      }
      RunStaysFaithful(rank, v, init);
      HandleKeeps(rank, HandleAll(rank, v, init), events[|events| - 1]);
    }
  }

  lemma HandleKeeps(rank: Collation, v: View, e: ChatEvent)
    requires Orders(rank) && GoodView(rank, v) && Admitted(rank, v, e)
    ensures GoodView(rank, Handle(rank, v, e))
  {
    hide Handle, Admitted, Faithful;
    HandleKeepsGood(rank, v, e);
  }

  /** The server sends no cleared message, except as the news that it has been cleared. */
  ghost predicate ServerKeepsItsWord(e: ChatEvent) {
    && (e.Mutated? ==> !e.message.cleared)
    && (e.HistoryLoaded? ==> Uncleared(e.snapshot))
  }

  /** Then the map never holds a cleared message. */
  lemma MapStaysUncleared(rank: Collation, v: View, e: ChatEvent)
    requires Orders(rank) && DistinctIds(v.entries) && Uncleared(v.entries) && ServerKeepsItsWord(e)
    ensures Uncleared(Handle(rank, v, e).entries)
  {
    hide Shown, Rendered, SortMessages, Trim, Without;
    match e
    case MessageArrived(m, context) =>
      UpsertFacts(v.entries, m);
      TrimSplitsSort(rank, Upsert(v.entries, m), PUBLIC_MESSAGE_LIMIT);
      TrimSplitsSort(rank, v.entries, PUBLIC_MESSAGE_LIMIT);
    case Mutated(m, context) =>
      UpsertFacts(v.entries, m);
      TrimSplitsSort(rank, Upsert(v.entries, m), PUBLIC_MESSAGE_LIMIT);
    case HistoryLoaded(snapshot, known, context) =>
      var reconciled := ReconcileSnapshot(v.entries, snapshot, known);
      SnapshotLookup(v.entries, snapshot, known, "");
      TrimSplitsSort(rank, reconciled, PUBLIC_MESSAGE_LIMIT);
      forall m | m in reconciled ensures !m.cleared {
        SnapshotLookup(v.entries, snapshot, known, m.id);
        LookupUnique(reconciled, m);
      }
    case Cleared(context) =>
  }
}

/** What a group's newData flag says after a snapshot. */
module StationNews {
  import opened Wrappers
  import opened Sequences
  import opened StationGroups
  import opened StationFacts

  // ----- No change goes unannounced -----

  /** A group's contents are as before or it says it has new data. */
  predicate Announced(before: Groups, after: Groups, key: GroupKey) {
    after[key].members == before[key].members || after[key].newData
  }

  ghost predicate Keeps(before: Groups, after: Groups, key: GroupKey) {
    Announced(before, after, key) && (before[key].newData ==> after[key].newData)
  }

  lemma AddKeeps(g: Groups, at: GroupKey, c: string, key: GroupKey)
    ensures Keeps(g, AddTo(g, at, c), key) && Keeps(g, DeleteFrom(g, at, c), key) && Keeps(g, Mark(g, at), key)
  {
    hide Select;
  }

  lemma HandKeeps(g: Groups, s: Station, changed: seq<Property>, key: GroupKey)
    ensures Keeps(g, HandHook(g, s, changed), key)
  {
    hide AddTo, DeleteFrom;
    AddKeeps(g, HandUp, s.callSign, key);
  }

  lemma CheckedInKeeps(g: Groups, s: Station, changed: seq<Property>, prior: Option<Station>, key: GroupKey)
    ensures Keeps(g, CheckedInHook(g, s, changed, prior), key)
  {
    hide AddTo, DeleteFrom, Mark;
    AddKeeps(g, CheckedInEver, s.callSign, key);
    AddKeeps(if s.checkedState.Some? then AddTo(g, CheckedInEver, s.callSign)
             else DeleteFrom(g, CheckedInEver, s.callSign),
             CheckedInEver, s.callSign, key);
  }

  lemma CheckedOutKeeps(g: Groups, s: Station, changed: seq<Property>, key: GroupKey)
    ensures Keeps(g, CheckedOutHook(g, s, changed), key)
  {
    hide AddTo, DeleteFrom, Mark;
    AddKeeps(g, CheckedOut, s.callSign, key);
    AddKeeps(if s.checkedState == Some(false) then AddTo(g, CheckedOut, s.callSign)
             else DeleteFrom(g, CheckedOut, s.callSign),
             CheckedOut, s.callSign, key);
  }

  lemma DeleteKeeps(g: Groups, s: Station, prior: Option<Station>, role: Role, at: GroupKey, key: GroupKey)
    ensures Keeps(g, DeleteIfPrior(g, s, prior, role, at), key)
  {
    hide DeleteFrom;
    AddKeeps(g, at, s.callSign, key);
  }

  lemma DeletesKeep(g: Groups, s: Station, prior: Option<Station>, role1: Role, key1: GroupKey,
                    role2: Role, key2: GroupKey, key: GroupKey)
    ensures Keeps(g, DeleteIfPrior(DeleteIfPrior(g, s, prior, role1, key1), s, prior, role2, key2), key)
  {
    hide DeleteIfPrior;
    DeleteKeeps(g, s, prior, role1, key1, key);
    DeleteKeeps(DeleteIfPrior(g, s, prior, role1, key1), s, prior, role2, key2, key);
  }

  lemma RoleKeeps(g: Groups, s: Station, changed: seq<Property>, prior: Option<Station>, key: GroupKey)
    ensures Keeps(g, RoleHook(g, s, changed, prior), key)
  {
    hide AddTo, DeleteIfPrior;
    match s.role
    case NetLogger =>
      AddKeeps(g, Loggers, s.callSign, key);
      DeletesKeep(AddTo(g, Loggers, s.callSign), s, prior, NetRelay, Relays, NetControl, NetControls, key);
    case NetRelay =>
      AddKeeps(g, Relays, s.callSign, key);
      DeletesKeep(AddTo(g, Relays, s.callSign), s, prior, NetLogger, Loggers, NetControl, NetControls, key);
    case NetControl =>
      AddKeeps(g, NetControls, s.callSign, key);
      DeletesKeep(AddTo(g, NetControls, s.callSign), s, prior, NetLogger, Loggers, NetRelay, Relays, key);
    case NetUser =>
      DeletesKeep(g, s, prior, NetLogger, Loggers, NetRelay, Relays, key);
      var g2 := DeleteIfPrior(DeleteIfPrior(g, s, prior, NetLogger, Loggers), s, prior, NetRelay, Relays);
      DeleteKeeps(g2, s, prior, NetControl, NetControls, key);
  }

  lemma TouchKeeps(g: Groups, s: Station, prior: Option<Station>, key: GroupKey)
    ensures Keeps(g, Touch(g, s, prior), key)
  {
    hide Changed, HandHook, CheckedInHook, CheckedOutHook, RoleHook;
    var changed := Changed(s, prior);
    var g1 := HandHook(g, s, changed);
    var g2 := CheckedInHook(g1, s, changed, prior);
    HandKeeps(g, s, changed, key);
    CheckedInKeeps(g1, s, changed, prior, key);
    CheckedOutKeeps(g2, s, changed, key);
    RoleKeeps(CheckedOutHook(g2, s, changed), s, changed, prior, key);
  }

  lemma {:induction false} TouchAllKeeps(g: Groups, index: Index, prior: Option<Index>, key: GroupKey)
    ensures Keeps(g, TouchAll(g, index, prior), key)
  {
    hide Touch;
    if index != [] {
      var init, last := index[..|index| - 1], index[|index| - 1];
      TouchAllKeeps(g, init, prior, key);
      TouchKeeps(TouchAll(g, init, prior), last, FindPrior(prior, last.callSign), key);
    }
  }

  lemma {:induction false} DepartKeeps(g: Groups, removed: seq<string>, prior: Index, key: GroupKey)
    ensures Keeps(g, Depart(g, removed, prior), key)
  {
    hide Select, Find;
    if removed != [] {
      DepartKeeps(g, removed[..|removed| - 1], prior, key);
    }
  }

  lemma AggregateKeeps(g: Groups, index: Index, prior: Option<Index>, key: GroupKey)
    requires key != Attendees
    ensures Keeps(g, Aggregate(g, index, prior), key)
  {
    hide Depart, Missing, CallSigns;
    if prior.Some? {
      var current, before := CallSigns(index), CallSigns(prior.value);
      var changed := Missing(current, before) != [] || Missing(before, current) != [] || before != current;
      DepartKeeps(g[Attendees := Group(current, changed)], Missing(before, current), prior.value, key);
    }
  }

  /** One snapshot announces every change it makes, and everything when it is the first. */
  lemma SnapshotAnnounces(i: Indexer, snapshot: Index, key: GroupKey)
    requires i.index.Some? ==> i.groups[Attendees].members == CallSigns(i.index.value)
    ensures Announced(i.groups, ProcessSnapshot(i, snapshot).groups, key)
    ensures i.index.None? ==> ProcessSnapshot(i, snapshot).groups[key].newData
  {
    hide TouchAll, Aggregate, CallSigns;
    var g := SetNewData(i.groups, i.index.None?);
    var touched := TouchAll(g, snapshot, i.index);
    TouchAllKeeps(g, snapshot, i.index, key);
    AggregateAttendees(touched, snapshot, i.index);
    if key != Attendees {
      AggregateKeeps(touched, snapshot, i.index, key);
    }
  }

  /** Any change in a group's contents, in members or in their order, sets that group's newData. */
  lemma ChangesAreAnnounced(h: History, key: GroupKey)
    requires ValidHistory(h) && h != []
    ensures Announced(AfterAll(h[..|h| - 1]).groups, AfterAll(h).groups, key)
    ensures |h| == 1 ==> AfterAll(h).groups[key].newData
  {
    hide ProcessSnapshot, CallSigns;
    var i := AfterAll(h[..|h| - 1]);
    if |h| == 1 {
      assert h[..0] == [];
    } else {
      AfterIndex(h[..|h| - 1]);
      AttendeesAreLastSnapshot(h[..|h| - 1]);
    }
    SnapshotAnnounces(i, h[|h| - 1], key);
  }

  /** After the first run attendees has new data exactly when the ordered list of call signs changed. */
  lemma AttendeesNewDataExactly(h: History)
    requires ValidHistory(h) && |h| > 1
    ensures AfterAll(h).groups[Attendees].newData <==> CallSigns(h[|h| - 1]) != CallSigns(h[|h| - 2])
    ensures !AfterAll(h).firstRun
  {
    var i := AfterAll(h[..|h| - 1]);
    AfterIndex(h[..|h| - 1]);
    assert h[..|h| - 1][|h| - 2] == h[|h| - 2];
    AggregateAttendees(TouchAll(SetNewData(i.groups, i.index.None?), h[|h| - 1], i.index), h[|h| - 1], i.index);
  }

  // ----- Exactly when a group has news -----

  /** The station's check-in state differs from the prior snapshot's, or the station was not in it. */
  predicate CheckInNews(s: Station, prior: Option<Station>) {
    prior.None? || s.checkedState != prior.value.checkedState
  }

  /** The station puts its hand up, or takes down one that the group holds. */
  predicate HandNews(s: Station, prior: Option<Station>, listed: bool) {
    (prior.None? || s.hand != prior.value.hand) && (s.hand || listed)
  }

  /** The station takes up the group's role, or gives it up while the group lists it. */
  predicate RoleNews(key: GroupKey, s: Station, prior: Option<Station>, listed: bool) {
    && (prior.None? || s.role != prior.value.role)
    && (RoleGroup(s.role) == Some(key) || (prior.Some? && RoleGroup(prior.value.role) == Some(key) && listed))
  }

  /** The station's record is news for the group, which may list it already. */
  predicate StationNewsAt(key: GroupKey, s: Station, prior: Option<Station>, listed: bool) {
    match key
    case HandUp => HandNews(s, prior, listed)
    case CheckedInEver => CheckInNews(s, prior)
    case CheckedOut => CheckInNews(s, prior)
    case Attendees => false
    case _ => RoleNews(key, s, prior, listed)
  }

  lemma DeleteIfPriorNews(g: Groups, s: Station, prior: Option<Station>, role: Role, at: GroupKey, key: GroupKey)
    ensures var r := DeleteIfPrior(g, s, prior, role, at);
            && (r[key].newData <==>
                  g[key].newData || (key == at && prior.Some? && prior.value.role == role && In(g, key, s.callSign)))
            && (key != at ==> r[key] == g[key])
  {
    hide Select;
  }

  lemma AddNews(g: Groups, at: GroupKey, c: string, key: GroupKey)
    ensures AddTo(g, at, c)[key].newData <==> g[key].newData || key == at
    ensures key != at ==> AddTo(g, at, c)[key] == g[key]
  {
  }

  /** Leaving two different role groups. */
  lemma TwoLeftNews(g: Groups, s: Station, prior: Option<Station>, role1: Role, key1: GroupKey, role2: Role,
                    key2: GroupKey, key: GroupKey)
    requires key1 != key2
    ensures var r := DeleteIfPrior(DeleteIfPrior(g, s, prior, role1, key1), s, prior, role2, key2);
            && (r[key].newData <==>
                  || g[key].newData
                  || (prior.Some? && In(g, key, s.callSign)
                      && ((key == key1 && prior.value.role == role1) || (key == key2 && prior.value.role == role2))))
            && (key != key1 && key != key2 ==> r[key] == g[key])
  {
    hide DeleteIfPrior;
    DeleteIfPriorNews(g, s, prior, role1, key1, key);
    DeleteIfPriorNews(DeleteIfPrior(g, s, prior, role1, key1), s, prior, role2, key2, key);
  }

  /** Joining one group and leaving two others. */
  lemma JoinedNews(g: Groups, s: Station, prior: Option<Station>, own: GroupKey, role1: Role, key1: GroupKey,
                   role2: Role, key2: GroupKey, key: GroupKey)
    requires own != key1 && own != key2 && key1 != key2
    ensures var added := AddTo(g, own, s.callSign);
            var r := DeleteIfPrior(DeleteIfPrior(added, s, prior, role1, key1), s, prior, role2, key2);
            && (r[key].newData <==>
                  || g[key].newData || key == own
                  || (prior.Some? && In(g, key, s.callSign)
                      && ((key == key1 && prior.value.role == role1) || (key == key2 && prior.value.role == role2))))
            && (key != own && key != key1 && key != key2 ==> r[key] == g[key])
  {
    hide AddTo, DeleteIfPrior;
    AddNews(g, own, s.callSign, key);
    TwoLeftNews(AddTo(g, own, s.callSign), s, prior, role1, key1, role2, key2, key);
  }

  /** Leaving whichever role group there is to leave. */
  lemma AllLeftNews(g: Groups, s: Station, prior: Option<Station>, key: GroupKey)
    ensures var left := DeleteIfPrior(DeleteIfPrior(g, s, prior, NetLogger, Loggers), s, prior, NetRelay, Relays);
            var r := DeleteIfPrior(left, s, prior, NetControl, NetControls);
            && (r[key].newData <==>
                  || g[key].newData
                  || (prior.Some? && RoleGroup(prior.value.role) == Some(key) && In(g, key, s.callSign)))
            && (!key.Loggers? && !key.Relays? && !key.NetControls? ==> r[key] == g[key])
  {
    hide DeleteIfPrior;
    var left := DeleteIfPrior(DeleteIfPrior(g, s, prior, NetLogger, Loggers), s, prior, NetRelay, Relays);
    TwoLeftNews(g, s, prior, NetLogger, Loggers, NetRelay, Relays, key);
    DeleteIfPriorNews(left, s, prior, NetControl, NetControls, key);
  }

  lemma RoleHookNews(g: Groups, s: Station, prior: Option<Station>, key: GroupKey)
    ensures RoleHook(g, s, Changed(s, prior), prior)[key].newData <==>
              || g[key].newData
              || ((key.Loggers? || key.Relays? || key.NetControls?) && RoleNews(key, s, prior, In(g, key, s.callSign)))
    ensures key.HandUp? || key.CheckedInEver? || key.CheckedOut? || key.Attendees? ==>
              RoleHook(g, s, Changed(s, prior), prior)[key] == g[key]
  {
    hide Changed, AddTo, DeleteIfPrior, In;
    ChangedExactly(s, prior, StationRole);
    match s.role
    case NetLogger => JoinedNews(g, s, prior, Loggers, NetRelay, Relays, NetControl, NetControls, key);
    case NetRelay => JoinedNews(g, s, prior, Relays, NetLogger, Loggers, NetControl, NetControls, key);
    case NetControl => JoinedNews(g, s, prior, NetControls, NetLogger, Loggers, NetRelay, Relays, key);
    case NetUser => AllLeftNews(g, s, prior, key);
  }

  lemma HandHookNews(g: Groups, s: Station, prior: Option<Station>, key: GroupKey)
    ensures HandHook(g, s, Changed(s, prior))[key].newData <==>
              g[key].newData || (key.HandUp? && HandNews(s, prior, In(g, key, s.callSign)))
    ensures !key.HandUp? ==> HandHook(g, s, Changed(s, prior))[key] == g[key]
  {
    hide Changed, Select;
    ChangedExactly(s, prior, Hand);
  }

  lemma CheckedInHookNews(g: Groups, s: Station, prior: Option<Station>, key: GroupKey)
    ensures CheckedInHook(g, s, Changed(s, prior), prior)[key].newData <==>
              g[key].newData || (key.CheckedInEver? && CheckInNews(s, prior))
    ensures !key.CheckedInEver? ==> CheckedInHook(g, s, Changed(s, prior), prior)[key] == g[key]
  {
    hide Changed, Select;
    ChangedExactly(s, prior, CheckedState);
  }

  lemma CheckedOutHookNews(g: Groups, s: Station, prior: Option<Station>, key: GroupKey)
    ensures CheckedOutHook(g, s, Changed(s, prior))[key].newData <==>
              g[key].newData || (key.CheckedOut? && CheckInNews(s, prior))
    ensures !key.CheckedOut? ==> CheckedOutHook(g, s, Changed(s, prior))[key] == g[key]
  {
    hide Changed, Select;
    ChangedExactly(s, prior, CheckedState);
  }

  /** One station's hooks set the flags of exactly the groups its record is news for. */
  lemma TouchNews(g: Groups, s: Station, prior: Option<Station>, key: GroupKey)
    ensures Touch(g, s, prior)[key].newData
            <==> g[key].newData || StationNewsAt(key, s, prior, In(g, key, s.callSign))
  {
    hide Changed, HandHook, CheckedInHook, CheckedOutHook, RoleHook, HandNews, CheckInNews, RoleNews;
    var changed := Changed(s, prior);
    var g1 := HandHook(g, s, changed);
    var g2 := CheckedInHook(g1, s, changed, prior);
    var g3 := CheckedOutHook(g2, s, changed);
    HandHookNews(g, s, prior, key);
    CheckedInHookNews(g1, s, prior, key);
    CheckedOutHookNews(g2, s, prior, key);
    RoleHookNews(g3, s, prior, key);
  }

  lemma {:induction false} TouchAllNews(g: Groups, index: Index, prior: Option<Index>, key: GroupKey)
    requires UniqueCallSigns(index)
    ensures TouchAll(g, index, prior)[key].newData <==>
              || g[key].newData
              || exists s :: s in index && StationNewsAt(key, s, FindPrior(prior, s.callSign), In(g, key, s.callSign))
  {
    hide Touch, Find, FindPrior, StationNewsAt, In;
    if index != [] {
      var init, last := index[..|index| - 1], index[|index| - 1];
      assert index == init + [last];
      TouchAllNews(g, init, prior, key);
      TouchNews(TouchAll(g, init, prior), last, FindPrior(prior, last.callSign), key);
      TouchAllAt(g, init, prior, key, last.callSign);
      LastIsNew(index);
    }
  }

  /** The station's record in the index says it is checked in. */
  predicate CheckedIn(index: Index, c: string) {
    Find(index, c).Some? && Find(index, c).value.checkedState == Some(true)
  }

  lemma {:induction false} DepartNews(g: Groups, removed: seq<string>, prior: Index, key: GroupKey)
    ensures Depart(g, removed, prior)[key].newData <==>
              g[key].newData || (key.CheckedInEver? && exists c :: c in removed && CheckedIn(prior, c))
  {
    hide Find, Group.Delete;
    if removed != [] {
      var init, last := removed[..|removed| - 1], removed[|removed| - 1];
      assert removed == init + [last];
      DepartNews(g, init, prior, key);
      if CheckedIn(prior, last) {
        assert last in removed;
      } else {
        assert forall c :: c in removed && CheckedIn(prior, c) <==> c in init && CheckedIn(prior, c);
      }
    }
  }

  /** A station that was checked in left with this snapshot. */
  ghost predicate CheckedInLeft(before: Index, now: Index) {
    exists c :: CheckedIn(before, c) && Find(now, c).None?
  }

  lemma AggregateNews(g: Groups, now: Index, before: Index, key: GroupKey)
    requires !key.Attendees?
    ensures Aggregate(g, now, Some(before))[key].newData <==>
              g[key].newData || (key.CheckedInEver? && CheckedInLeft(before, now))
  {
    hide Find, CallSigns, Missing, Depart;
    var current, prior := CallSigns(now), CallSigns(before);
    var removed := Missing(prior, current);
    var changed := Missing(current, prior) != [] || removed != [] || prior != current;
    DepartNews(g[Attendees := Group(current, changed)], removed, before, key);
    forall c ensures c in removed <==> Find(now, c).None? && Find(before, c).Some? {
      FindPresent(now, c);
      FindPresent(before, c);
    }
  }

  /**
   After the first run, a group other than attendees has new data exactly when some station in the
   snapshot is news for it, or, for checked-in-ever, when a checked-in station left.
   */
  lemma NewDataExactly(h: History, key: GroupKey)
    requires ValidHistory(h) && |h| > 1 && !key.Attendees?
    ensures var now, before := h[|h| - 1], h[|h| - 2];
            AfterAll(h).groups[key].newData <==>
              || (exists s :: s in now && StationNewsAt(key, s, Find(before, s.callSign),
                                                        In(AfterAll(h[..|h| - 1]).groups, key, s.callSign)))
              || (key.CheckedInEver? && CheckedInLeft(before, now))
  {
    hide TouchAll, Aggregate, Find, StationNewsAt, CheckedInLeft;
    var now, before := h[|h| - 1], h[|h| - 2];
    var i := AfterAll(h[..|h| - 1]);
    AfterIndex(h[..|h| - 1]);
    assert h[..|h| - 1][|h| - 2] == before;
    var g := SetNewData(i.groups, false);
    TouchAllNews(g, now, i.index, key);
    AggregateNews(TouchAll(g, now, i.index), now, before, key);
    assert forall c :: In(g, key, c) == In(i.groups, key, c);
  }
}

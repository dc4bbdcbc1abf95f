/**
 The incrementally maintained groups against the history of snapshots: after any run, with stations
 leaving and returning, each group is a plain function of which snapshots were seen.
 */
module StationFacts {
  import opened Wrappers
  import opened Sequences
  import opened StationGroups

  type History = seq<Index>

  /** Every snapshot has stations, and no call sign twice. */
  ghost predicate ValidHistory(h: History) {
    forall t :: 0 <= t < |h| ==> h[t] != [] && UniqueCallSigns(h[t])
  }

  /** The indexer after processing the snapshots in order. */
  function AfterAll(h: History): Indexer {
    if h == [] then FRESH else ProcessSnapshot(AfterAll(h[..|h| - 1]), h[|h| - 1])
  }

  /** The record a call sign had in the last snapshot that listed it. */
  function LastSeen(h: History, c: string): Option<Station> {
    if h == [] then None
    else
      var found := Find(h[|h| - 1], c);
      if found.Some? then found else LastSeen(h[..|h| - 1], c)
  }

  predicate In(g: Groups, key: GroupKey, c: string) {
    c in g[key].members
  }

  // ----- One station -----

  lemma AllOfInterest(p: Property)
    ensures p in PROPERTIES_OF_INTEREST
  {
    var i := match p
      case DisplayName => 0
      case Location => 1
      case CheckedState => 2
      case Hand => 3
      case StationRole => 4
      case Highlight => 5
      case StationPresence => 6
      case Level => 7
      case CallSign => 8
      case Photo => 9
      case AverageSigReport => 10
      case ChatEnabled => 11;
    assert PROPERTIES_OF_INTEREST[i] == p;
  }

  /** A property is listed as changed exactly when it differs, or when the station is new. */
  lemma ChangedExactly(s: Station, prior: Option<Station>, p: Property)
    ensures p in Changed(s, prior) <==> prior.None? || Differs(p, s, prior.value)
  {
    AllOfInterest(p);
  }

  /** What one station's record makes of its own membership in a group. */
  predicate Verdict(key: GroupKey, was: bool, s: Station, prior: Option<Station>) {
    match key
    case HandUp => if prior.None? || Differs(Hand, s, prior.value) then s.hand else was
    case CheckedInEver => if prior.None? || Differs(CheckedState, s, prior.value) then s.checkedState.Some? else was
    case CheckedOut =>
      if prior.None? || Differs(CheckedState, s, prior.value) then s.checkedState == Some(false) else was
    case Attendees => was
    case _ =>
      if prior.Some? && !Differs(StationRole, s, prior.value) then was
      else if RoleGroup(s.role) == Some(key) then true
      else if prior.Some? && RoleGroup(prior.value.role) == Some(key) then false
      else was
  }

  lemma AddMember(group: Group, c: string, d: string)
    ensures d in group.Add(c).members <==> d == c || d in group.members
    ensures d in group.Delete(c).members <==> d != c && d in group.members
  {
  }

  lemma HandAt(g: Groups, s: Station, prior: Option<Station>, key: GroupKey, c: string)
    ensures In(HandHook(g, s, Changed(s, prior)), key, c) ==
              if key.HandUp? && s.callSign == c then Verdict(key, In(g, key, c), s, prior) else In(g, key, c)
  {
    hide Changed, Group.Add, Group.Delete;
    ChangedExactly(s, prior, Hand);
    AddMember(g[HandUp], s.callSign, c);
  }

  lemma CheckedInAt(g: Groups, s: Station, prior: Option<Station>, key: GroupKey, c: string)
    ensures In(CheckedInHook(g, s, Changed(s, prior), prior), key, c) ==
              if key.CheckedInEver? && s.callSign == c then Verdict(key, In(g, key, c), s, prior) else In(g, key, c)
  {
    hide Changed, Group.Add, Group.Delete;
    ChangedExactly(s, prior, CheckedState);
    AddMember(g[CheckedInEver], s.callSign, c);
  }

  lemma CheckedOutAt(g: Groups, s: Station, prior: Option<Station>, key: GroupKey, c: string)
    ensures In(CheckedOutHook(g, s, Changed(s, prior)), key, c) ==
              if key.CheckedOut? && s.callSign == c then Verdict(key, In(g, key, c), s, prior) else In(g, key, c)
  {
    hide Changed, Group.Add, Group.Delete;
    ChangedExactly(s, prior, CheckedState);
    AddMember(g[CheckedOut], s.callSign, c);
  }

  lemma DeleteIfPriorAt(g: Groups, s: Station, prior: Option<Station>, role: Role, key: GroupKey, k: GroupKey,
                        c: string)
    ensures In(DeleteIfPrior(g, s, prior, role, key), k, c) <==>
              In(g, k, c) && !(k == key && s.callSign == c && prior.Some? && prior.value.role == role)
  {
    hide Group.Delete;
    AddMember(g[key], s.callSign, c);
  }

  /** Joining one role group and leaving two others. */
  lemma RoleChangeAt(g: Groups, s: Station, prior: Option<Station>, own: GroupKey, role1: Role, key1: GroupKey,
                     role2: Role, key2: GroupKey, k: GroupKey, c: string)
    ensures var added := AddTo(g, own, s.callSign);
            var joined := DeleteIfPrior(DeleteIfPrior(added, s, prior, role1, key1), s, prior, role2, key2);
            In(joined, k, c) <==>
              && ((k == own && s.callSign == c) || In(g, k, c))
              && !(&& s.callSign == c && prior.Some?
                   && ((k == key1 && prior.value.role == role1) || (k == key2 && prior.value.role == role2)))
  {
    hide Group.Add, DeleteIfPrior;
    var g1 := AddTo(g, own, s.callSign);
    AddMember(g[own], s.callSign, c);
    DeleteIfPriorAt(g1, s, prior, role1, key1, k, c);
    DeleteIfPriorAt(DeleteIfPrior(g1, s, prior, role1, key1), s, prior, role2, key2, k, c);
  }

  lemma RoleLeftAt(g: Groups, s: Station, prior: Option<Station>, k: GroupKey, c: string)
    ensures var two := DeleteIfPrior(DeleteIfPrior(g, s, prior, NetLogger, Loggers), s, prior, NetRelay, Relays);
            var left := DeleteIfPrior(two, s, prior, NetControl, NetControls);
            In(left, k, c) <==>
              In(g, k, c) && !(s.callSign == c && prior.Some? && RoleGroup(prior.value.role) == Some(k))
  {
    hide DeleteIfPrior;
    var g1 := DeleteIfPrior(g, s, prior, NetLogger, Loggers);
    var g2 := DeleteIfPrior(g1, s, prior, NetRelay, Relays);
    DeleteIfPriorAt(g, s, prior, NetLogger, Loggers, k, c);
    DeleteIfPriorAt(g1, s, prior, NetRelay, Relays, k, c);
    DeleteIfPriorAt(g2, s, prior, NetControl, NetControls, k, c);
  }

  lemma RoleAt(g: Groups, s: Station, prior: Option<Station>, key: GroupKey, c: string)
    ensures In(RoleHook(g, s, Changed(s, prior), prior), key, c) ==
              if (key.Loggers? || key.Relays? || key.NetControls?) && s.callSign == c
              then Verdict(key, In(g, key, c), s, prior) else In(g, key, c)
  {
    hide Changed, AddTo, DeleteIfPrior, In;
    ChangedExactly(s, prior, StationRole);
    match s.role
    case NetLogger => RoleChangeAt(g, s, prior, Loggers, NetRelay, Relays, NetControl, NetControls, key, c);
    case NetRelay => RoleChangeAt(g, s, prior, Relays, NetLogger, Loggers, NetControl, NetControls, key, c);
    case NetControl => RoleChangeAt(g, s, prior, NetControls, NetLogger, Loggers, NetRelay, Relays, key, c);
    case NetUser => RoleLeftAt(g, s, prior, key, c);
  }

  /** A station's hooks change nobody's membership but its own, each hook in its own groups. */
  lemma TouchAt(g: Groups, s: Station, prior: Option<Station>, key: GroupKey, c: string)
    ensures In(Touch(g, s, prior), key, c) ==
              if s.callSign == c then Verdict(key, In(g, key, c), s, prior) else In(g, key, c)
  {
    hide Changed, HandHook, CheckedInHook, CheckedOutHook, RoleHook, Differs, RoleGroup;
    var changed := Changed(s, prior);
    var g1 := HandHook(g, s, changed);
    var g2 := CheckedInHook(g1, s, changed, prior);
    var g3 := CheckedOutHook(g2, s, changed);
    HandAt(g, s, prior, key, c);
    CheckedInAt(g1, s, prior, key, c);
    CheckedOutAt(g2, s, prior, key, c);
    RoleAt(g3, s, prior, key, c);
  }

  // ----- One snapshot -----

  lemma {:induction false} FindLast(index: Index, c: string)
    requires index != [] && UniqueCallSigns(index)
    ensures Find(index, c) == if index[|index| - 1].callSign == c then Some(index[|index| - 1])
                              else Find(index[..|index| - 1], c)
  {
    if |index| > 1 {
      var init := index[..|index| - 1];
      assert index[1..][..|index| - 2] == init[1..];
      FindLast(index[1..], c);
      if index[0].callSign == c {
        assert index[|index| - 1].callSign != c;
      }
    }
  }

  lemma LastIsNew(index: Index)
    requires index != [] && UniqueCallSigns(index)
    ensures Find(index[..|index| - 1], index[|index| - 1].callSign).None?
  {
    var init, last := index[..|index| - 1], index[|index| - 1];
    assert forall i :: 0 <= i < |init| ==> init[i].callSign != last.callSign;
  }

  lemma {:induction false} TouchAllAt(g: Groups, index: Index, prior: Option<Index>, key: GroupKey, c: string)
    requires UniqueCallSigns(index)
    ensures In(TouchAll(g, index, prior), key, c) ==
              var s := Find(index, c);
              if s.Some? then Verdict(key, In(g, key, c), s.value, FindPrior(prior, c)) else In(g, key, c)
  {
    hide Touch, Verdict, Find, FindPrior, In;
    if index != [] {
      var init, last := index[..|index| - 1], index[|index| - 1];
      FindLast(index, c);
      TouchAllAt(g, init, prior, key, c);
      TouchAt(TouchAll(g, init, prior), last, FindPrior(prior, last.callSign), key, c);
      LastIsNew(index);
    } else {
      assert Find(index, c).None? by { EmptyFind(c); }
    }
  }

  lemma EmptyFind(c: string)
    ensures Find([], c).None?
  {
  }

  lemma FindPresent(index: Index, c: string)
    ensures Find(index, c).Some? <==> c in CallSigns(index)
  {
    if c in CallSigns(index) {
      var i :| 0 <= i < |index| && CallSigns(index)[i] == c;
      assert index[i] in index;
    }
    if Find(index, c).Some? {
      var s := Find(index, c).value;
      var i :| 0 <= i < |index| && index[i] == s;
      assert CallSigns(index)[i] == c;
    }
  }

  lemma {:induction false} DepartAt(g: Groups, removed: seq<string>, prior: Index, key: GroupKey, c: string)
    ensures In(Depart(g, removed, prior), key, c) <==>
              In(g, key, c) && !(key.CheckedInEver? && c in removed
                                 && Find(prior, c).Some? && Find(prior, c).value.checkedState == Some(true))
  {
    hide Find, Group.Delete;
    if removed != [] {
      var init, last := removed[..|removed| - 1], removed[|removed| - 1];
      assert removed == init + [last];
      DepartAt(g, init, prior, key, c);
      AddMember(Depart(g, init, prior)[CheckedInEver], last, c);
    }
  }

  /** What the aggregate pass does to membership. */
  lemma AggregateAt(g: Groups, index: Index, prior: Option<Index>, key: GroupKey, c: string)
    ensures In(Aggregate(g, index, prior), key, c) <==>
              if key.Attendees? then Find(index, c).Some?
              else In(g, key, c) && !(key.CheckedInEver? && Find(index, c).None? && FindPrior(prior, c).Some?
                                      && FindPrior(prior, c).value.checkedState == Some(true))
  {
    hide Find, Depart, CallSigns;
    FindPresent(index, c);
    if prior.Some? {
      FindPresent(prior.value, c);
      var current, before := CallSigns(index), CallSigns(prior.value);
      var changed := Missing(current, before) != [] || Missing(before, current) != [] || before != current;
      DepartAt(g[Attendees := Group(current, changed)], Missing(before, current), prior.value, key, c);
    }
  }

  /** One snapshot's effect on the membership of one call sign. */
  lemma SnapshotAt(i: Indexer, snapshot: Index, key: GroupKey, c: string)
    requires UniqueCallSigns(snapshot)
    ensures In(ProcessSnapshot(i, snapshot).groups, key, c) <==>
              var s, prior := Find(snapshot, c), FindPrior(i.index, c);
              if key.Attendees? then s.Some?
              else if s.Some? then Verdict(key, In(i.groups, key, c), s.value, prior)
              else && In(i.groups, key, c)
                   && !(key.CheckedInEver? && prior.Some? && prior.value.checkedState == Some(true))
  {
    hide TouchAll, Aggregate, Verdict, Find, FindPrior;
    var reset := SetNewData(i.groups, i.index.None?);
    TouchAllAt(reset, snapshot, i.index, key, c);
    AggregateAt(TouchAll(reset, snapshot, i.index), snapshot, i.index, key, c);
  }

  // ----- Whole histories -----

  /** The indexer holds the last two snapshots, and whether there has been only one. */
  lemma IndexesAreLastTwo(h: History)
    requires h != []
    ensures AfterAll(h).index == Some(h[|h| - 1])
    ensures AfterAll(h).prior == (if |h| == 1 then None else Some(h[|h| - 2]))
    ensures AfterAll(h).firstRun <==> |h| == 1
  {
    if |h| > 1 {
      AfterIndex(h[..|h| - 1]);
    } else {
      assert h[..0] == [];
    }
  }

  lemma PriorIsLastSeen(h: History, c: string)
    requires |h| > 1 && Find(h[|h| - 2], c).Some?
    ensures LastSeen(h[..|h| - 1], c) == Find(h[|h| - 2], c)
  {
    assert h[..|h| - 1][|h| - 2] == h[|h| - 2];
  }

  lemma StepAt(h: History, key: GroupKey, c: string)
    requires ValidHistory(h) && h != []
    ensures ValidHistory(h[..|h| - 1])
    ensures In(AfterAll(h).groups, key, c) <==>
              var s := Find(h[|h| - 1], c);
              var prior := if |h| == 1 then None else Find(h[|h| - 2], c);
              var was := In(AfterAll(h[..|h| - 1]).groups, key, c);
              if key.Attendees? then s.Some?
              else if s.Some? then Verdict(key, was, s.value, prior)
              else was && !(key.CheckedInEver? && prior.Some? && prior.value.checkedState == Some(true))
  {
    hide ProcessSnapshot, Verdict, Find;
    var init := h[..|h| - 1];
    SnapshotAt(AfterAll(init), h[|h| - 1], key, c);
    if |h| > 1 {
      AfterIndex(init);
      assert init[|init| - 1] == h[|h| - 2];
    }
  }

  lemma AfterIndex(h: History)
    requires h != []
    ensures AfterAll(h).index == Some(h[|h| - 1])
  {
  }

  lemma NobodyAtFirst(key: GroupKey, c: string)
    ensures !In(AfterAll([]).groups, key, c)
  {
  }

  /** hand-up is exactly the call signs whose last-seen record has a hand up, present or not. */
  lemma {:induction false} HandUpIsLastSeen(h: History, c: string)
    requires ValidHistory(h)
    ensures In(AfterAll(h).groups, HandUp, c) <==> LastSeen(h, c).Some? && LastSeen(h, c).value.hand
  {
    hide Find, AfterAll;
    if h == [] {
      NobodyAtFirst(HandUp, c);
    } else {
      StepAt(h, HandUp, c);
      HandUpIsLastSeen(h[..|h| - 1], c);
      if |h| > 1 && Find(h[|h| - 2], c).Some? {
        PriorIsLastSeen(h, c);
      }
    }
  }

  /** checked-out is exactly the call signs last seen checked out, present or not. */
  lemma {:induction false} CheckedOutIsLastSeen(h: History, c: string)
    requires ValidHistory(h)
    ensures In(AfterAll(h).groups, CheckedOut, c)
            <==> LastSeen(h, c).Some? && LastSeen(h, c).value.checkedState == Some(false)
  {
    hide Find, AfterAll;
    if h == [] {
      NobodyAtFirst(CheckedOut, c);
    } else {
      StepAt(h, CheckedOut, c);
      CheckedOutIsLastSeen(h[..|h| - 1], c);
      if |h| > 1 && Find(h[|h| - 2], c).Some? {
        PriorIsLastSeen(h, c);
      }
    }
  }

  /**
   checked-in-ever is exactly the present stations that have ever been checked in or out, plus the
   departed ones that were last seen checked out.
   */
  lemma {:induction false} CheckedInEverExactly(h: History, c: string)
    requires ValidHistory(h) && h != []
    ensures In(AfterAll(h).groups, CheckedInEver, c) <==>
              && LastSeen(h, c).Some?
              && if Find(h[|h| - 1], c).Some? then LastSeen(h, c).value.checkedState.Some?
                 else LastSeen(h, c).value.checkedState == Some(false)
  {
    hide Find, AfterAll;
    StepAt(h, CheckedInEver, c);
    if |h| > 1 {
      var init := h[..|h| - 1];
      CheckedInEverExactly(init, c);
      assert init[|init| - 1] == h[|h| - 2];
      if Find(h[|h| - 2], c).Some? {
        PriorIsLastSeen(h, c);
        var state := Find(h[|h| - 2], c).value.checkedState;
        assert state.Some? ==> (state.value == true || state.value == false);
      }
    } else {
      NobodyAtFirst(CheckedInEver, c);
      assert h[..0] == [];
    }
  }

  /** attendees is exactly the last snapshot's call signs, in its order. */
  lemma AttendeesAreLastSnapshot(h: History)
    requires h != []
    ensures AfterAll(h).groups[Attendees].members == CallSigns(h[|h| - 1])
  {
    var init := AfterAll(h[..|h| - 1]);
    var touched := TouchAll(SetNewData(init.groups, init.index.None?), h[|h| - 1], init.index);
    AggregateAttendees(touched, h[|h| - 1], init.index);
  }

  lemma AggregateAttendees(g: Groups, index: Index, prior: Option<Index>)
    ensures Aggregate(g, index, prior)[Attendees].members == CallSigns(index)
    ensures Aggregate(g, index, prior)[Attendees].newData <==>
              prior.None? || CallSigns(prior.value) != CallSigns(index)
  {
    if prior.Some? {
      var current, before := CallSigns(index), CallSigns(prior.value);
      var changed := Missing(current, before) != [] || Missing(before, current) != [] || before != current;
      if before == current {
        NothingMissing(current, before);
      }
      DepartSparesAttendees(g[Attendees := Group(current, changed)], Missing(before, current), prior.value);
    }
  }

  lemma {:induction false} NothingMissing(from: seq<string>, other: seq<string>)
    requires forall c :: c in from ==> c in other
    ensures Missing(from, other) == []
  {
    if from != [] {
      NothingMissing(from[1..], other);
    }
  }

  lemma {:induction false} DepartSparesAttendees(g: Groups, removed: seq<string>, prior: Index)
    ensures Depart(g, removed, prior)[Attendees] == g[Attendees]
  {
    if removed != [] {
      DepartSparesAttendees(g, removed[..|removed| - 1], prior);
    }
  }

  // ----- Roles -----

  predicate HoldsRole(index: Index, c: string, key: GroupKey) {
    Find(index, c).Some? && RoleGroup(Find(index, c).value.role) == Some(key)
  }

  /** The last snapshot in which the call sign held the role, -1 if there is none. */
  function LastHeld(h: History, c: string, key: GroupKey): (t: int)
    ensures -1 <= t < |h|
    ensures t >= 0 ==> HoldsRole(h[t], c, key)
  {
    if h == [] then -1
    else if HoldsRole(h[|h| - 1], c, key) then |h| - 1
    else LastHeld(h[..|h| - 1], c, key)
  }

  lemma {:induction false} LastHeldIsLast(h: History, c: string, key: GroupKey, u: int)
    requires LastHeld(h, c, key) < u < |h|
    ensures !HoldsRole(h[u], c, key)
  {
    if h != [] && u < |h| - 1 {
      LastHeldIsLast(h[..|h| - 1], c, key, u);
    }
  }

  /**
   Role groups exactly: a call sign is in a role's group if and only if it has held the role and, the
   last time it did, that was the newest snapshot or the next snapshot did not list it at all.
   */
  lemma {:induction false} RoleGroupExactly(h: History, c: string, key: GroupKey)
    requires ValidHistory(h)
    requires key == Loggers || key == Relays || key == NetControls
    ensures var t := LastHeld(h, c, key);
            In(AfterAll(h).groups, key, c) <==> t >= 0 && (t == |h| - 1 || Find(h[t + 1], c).None?)
  {
    hide Find, AfterAll;
    if h == [] {
      NobodyAtFirst(key, c);
    } else {
      StepAt(h, key, c);
      RoleGroupExactly(h[..|h| - 1], c, key);
      if |h| > 1 {
        assert h[..|h| - 1][|h| - 2] == h[|h| - 2];
      }
    }
  }

  /** Every present logger, relay and net control is in its role's group. */
  lemma PresentRoleIsListed(h: History, c: string, key: GroupKey)
    requires ValidHistory(h) && h != [] && HoldsRole(h[|h| - 1], c, key)
    ensures In(AfterAll(h).groups, key, c)
  {
    hide AfterAll;
    RoleGroupExactly(h, c, key);
  }

  /** A call sign that leaves while holding a role only ever returns in that role. */
  ghost predicate Loyal(h: History, c: string) {
    forall t, u, key :: 0 <= t && t + 1 < u < |h| && LeavesAndReturns(h, c, key, t, u) ==> HoldsRole(h[u], c, key)
  }

  /** The call sign held the role at t, was absent right after, and is first listed again at u. */
  ghost predicate LeavesAndReturns(h: History, c: string, key: GroupKey, t: nat, u: nat)
    requires t < u < |h|
  {
    HoldsRole(h[t], c, key) && Find(h[u], c).Some? && forall v :: t < v < u ==> Find(h[v], c).None?
  }

  /** The first snapshot from t on that lists the call sign. */
  lemma {:induction false} FirstListed(h: History, c: string, t: nat) returns (u: nat)
    requires t < |h| && Find(h[|h| - 1], c).Some?
    ensures t <= u < |h| && Find(h[u], c).Some? && forall v :: t <= v < u ==> Find(h[v], c).None?
    decreases |h| - t
  {
    if Find(h[t], c).Some? {
      u := t;
    } else {
      u := FirstListed(h, c, t + 1);
    }
  }

  /** Along loyal runs a present call sign is in no role group but that of its own role. */
  lemma LoyalRolesAreExclusive(h: History, c: string, key: GroupKey)
    requires ValidHistory(h) && h != [] && Find(h[|h| - 1], c).Some?
    requires key == Loggers || key == Relays || key == NetControls
    requires Loyal(h, c)
    ensures In(AfterAll(h).groups, key, c) <==> HoldsRole(h[|h| - 1], c, key)
  {
    hide AfterAll, Find;
    RoleGroupExactly(h, c, key);
    var t := LastHeld(h, c, key);
    if t >= 0 && t != |h| - 1 && Find(h[t + 1], c).None? {
      var u := FirstListed(h, c, t + 1);
      assert LeavesAndReturns(h, c, key, t, u);
      assert HoldsRole(h[u], c, key);
      LastHeldIsLast(h, c, key, u);
      assert false;
    }
    if HoldsRole(h[|h| - 1], c, key) && t != |h| - 1 {
      LastHeldIsLast(h, c, key, |h| - 1);
      assert false;
    }
  }

  /** Disloyalty shows: a logger who leaves and returns as a relay stays listed as a logger. */
  lemma StaleRole(s: Station, other: Station)
    requires s.role == NetLogger && other.callSign != s.callSign
    ensures var h := [[s, other], [other], [s.(role := NetRelay), other]];
            && ValidHistory(h)
            && In(AfterAll(h).groups, Loggers, s.callSign) && In(AfterAll(h).groups, Relays, s.callSign)
  {
    hide AfterAll;
    var back := s.(role := NetRelay);
    var h := [[s, other], [other], [back, other]];
    assert h[0][0] == s && h[2][0] == back;
    RoleGroupExactly(h, s.callSign, Loggers);
    RoleGroupExactly(h, s.callSign, Relays);
    assert Find(h[0], s.callSign) == Some(s) && Find(h[1], s.callSign).None? && Find(h[2], s.callSign) == Some(back);
    assert h[..2][..1] == h[..1];
    assert LastHeld(h[..1], s.callSign, Loggers) == 0;
    assert LastHeld(h[..2], s.callSign, Loggers) == 0;
  }

  // ----- The difference index and newData -----

  lemma {:induction false} DiffIndexAt(index: Index, prior: Option<Index>, c: string)
    requires UniqueCallSigns(index)
    ensures var s := Find(index, c);
            var changed := if s.Some? then Changed(s.value, FindPrior(prior, c)) else [];
            if changed == [] then c !in DiffIndex(index, prior)
            else c in DiffIndex(index, prior) && DiffIndex(index, prior)[c] == changed
  {
    hide Find, Changed;
    if index == [] {
      EmptyFind(c);
    } else {
      FindLast(index, c);
      DiffIndexAt(index[..|index| - 1], prior, c);
      LastIsNew(index);
    }
  }

  /**
   The difference index is exact: a present station is listed with precisely the properties of
   interest that differ from the prior snapshot, or with all of them if it was not there; stations
   with no difference, and absent ones, are not listed.
   */
  lemma DiffIndexExactly(h: History, c: string, p: Property)
    requires ValidHistory(h) && h != []
    ensures AfterAll(h).changed.Some?
    ensures var changed := AfterAll(h).changed.value;
            var s := Find(h[|h| - 1], c);
            var prior := if |h| == 1 then None else Find(h[|h| - 2], c);
            (c in changed && p in changed[c]) <==> s.Some? && (prior.None? || Differs(p, s.value, prior.value))
    ensures c in AfterAll(h).changed.value ==> AfterAll(h).changed.value[c] != []
  {
    hide Find, Changed, TouchAll, Aggregate;
    var init := h[..|h| - 1];
    if |h| > 1 {
      AfterIndex(init);
      assert init[|init| - 1] == h[|h| - 2];
    }
    var prior := if |h| == 1 then None else Find(h[|h| - 2], c);
    DiffIndexAt(h[|h| - 1], AfterAll(init).index, c);
    if Find(h[|h| - 1], c).Some? {
      ChangedExactly(Find(h[|h| - 1], c).value, prior, p);
    }
  }
}

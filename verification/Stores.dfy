/**
 StateGroup, StateGroupCollection and StationIndexer as the objects they are: the hooks change the
 groups in place while the index is walked, and the aggregate pass replaces the attendees group.
 */
module Stores {
  import opened Wrappers
  import opened Sequences
  import opened StationGroups

  /** The set a list of keys makes, in upper case and in order of first appearance. */
  function Collected(keys: seq<string>): seq<string> {
    Dedup(seq(|keys|, i requires 0 <= i < |keys| => ToUpperCase(keys[i])))
  }

  lemma CollectedNext(keys: seq<string>, i: nat)
    requires i < |keys|
    ensures var before, key := Collected(keys[..i]), ToUpperCase(keys[i]);
            Collected(keys[..i + 1]) == if key in before then before else before + [key]
  {
    hide ToUpperCase;
    var upper := seq(|keys[..i + 1]|, k requires 0 <= k < |keys[..i + 1]| => ToUpperCase(keys[..i + 1][k]));
    assert upper[..|upper| - 1] == seq(|keys[..i]|, k requires 0 <= k < |keys[..i]| => ToUpperCase(keys[..i][k]));
  }

  /** Different keys in upper case are collected as they are. */
  lemma {:induction false} CollectedClean(keys: seq<string>)
    requires Distinct(keys) && forall k :: k in keys ==> Upper(k)
    ensures Collected(keys) == keys
  {
    hide ToUpperCase, Collected;
    if keys == [] {
      CollectedNothing();
    } else {
      var init := keys[..|keys| - 1];
      CollectedClean(init);
      CollectedNext(keys, |init|);
      assert keys[..|init| + 1] == keys && keys[|init|] in keys;
    }
  }

  lemma CollectedNothing()
    ensures Collected([]) == []
  {
  }

  lemma CleanKeys(index: Index)
    requires Clean(index)
    ensures Collected(CallSigns(index)) == CallSigns(index)
    ensures forall c :: c in CallSigns(index) ==> Upper(c)
  {
    hide ToUpperCase, Collected, Upper;
    var keys := CallSigns(index);
    forall c | c in keys ensures Upper(c) {
      var i :| 0 <= i < |keys| && keys[i] == c;
      assert index[i] in index;
    }
    CollectedClean(keys);
  }

  /** An insertion-ordered set of call signs that notes when it may have changed. */
  class StateGroup {
    var members: seq<string>
    var newData: bool

    ghost function Value(): Group
      reads this
    {
      Group(members, newData)
    }

    constructor (keys: seq<string>)
      ensures Value() == Group(Collected(keys), false)
    {
      members := [];
      new;
      CollectedNothing();
      for i := 0 to |keys|
        invariant members == Collected(keys[..i])
      {
        CollectedNext(keys, i);
        Add(keys[i]);
      }
      assert keys[..|keys|] == keys;
      newData := false;
    }

    method Add(callSign: string)
      modifies this
      ensures Value() == old(Value()).Add(ToUpperCase(callSign))
    {
      newData := true;
      var key := ToUpperCase(callSign);
      if key !in members {
        members := members + [key];
      }
    }

    method Delete(callSign: string) returns (result: bool)
      modifies this
      ensures Value() == old(Value()).Delete(ToUpperCase(callSign))
      ensures result <==> ToUpperCase(callSign) in old(members)
    {
      var key := ToUpperCase(callSign);
      result := key in members;
      if result {
        members := Select(members, Elems(members) - {key});
        newData := true;
      }
    }
  }

  function GroupKeys(): (keys: seq<GroupKey>)
    ensures forall k: GroupKey :: k in keys
  {
    var keys := [HandUp, CheckedInEver, Loggers, Relays, Attendees, CheckedOut, NetControls];
    assert forall k: GroupKey :: k in keys by {
      forall k: GroupKey ensures k in keys {
        var i := match k
          case HandUp => 0
          case CheckedInEver => 1
          case Loggers => 2
          case Relays => 3
          case Attendees => 4
          case CheckedOut => 5
          case NetControls => 6;
        assert keys[i] == k;
      }
    }
    keys
  }

  ghost predicate Complete(groups: map<GroupKey, StateGroup>) {
    forall k: GroupKey :: k in groups
  }

  /** No two keys share a group object. */
  ghost predicate Apart(groups: map<GroupKey, StateGroup>) {
    forall a, b :: a in groups && b in groups && a != b ==> groups[a] != groups[b]
  }

  /** One new, empty group object for each key. */
  method NewGroups(keys: seq<GroupKey>) returns (groups: map<GroupKey, StateGroup>)
    ensures forall k :: k in groups <==> k in keys
    ensures forall k :: k in groups ==> fresh(groups[k]) && groups[k].Value() == EMPTY
    ensures Apart(groups)
  {
    hide ToUpperCase, Collected;
    CollectedNothing();
    groups := map[];
    for i := 0 to |keys|
      invariant forall k :: k in groups <==> k in keys[..i]
      invariant forall k :: k in groups ==> fresh(groups[k]) && groups[k].Value() == EMPTY
      invariant Apart(groups)
    {
      var group := new StateGroup([]);
      groups := groups[keys[i] := group];
    }
  }

  class StateGroupCollection {
    var stateGroups: map<GroupKey, StateGroup>

    ghost predicate Valid()
      reads this
    {
      Complete(stateGroups) && Apart(stateGroups)
    }

    ghost function Value(): Groups
      requires Valid()
      reads this, stateGroups.Values
    {
      map k: GroupKey | k in stateGroups :: stateGroups[k].Value()
    }

    constructor ()
      ensures Valid() && (forall o :: o in stateGroups.Values ==> fresh(o))
      ensures Value() == AllEmpty()
    {
      hide GroupKeys, AllEmpty, StateGroup.Value, Apart;
      var groups := NewGroups(GroupKeys());
      stateGroups := groups;
    }

    /** When one group object changes, or is replaced, one entry of the collection's value does. */
    twostate lemma GroupUpdated(key: GroupKey)
      requires old(Valid()) && Valid()
      requires forall k :: k != key ==>
                 stateGroups[k] == old(stateGroups)[k] && stateGroups[k].Value() == old(stateGroups[k].Value())
      ensures Value() == old(Value())[key := stateGroups[key].Value()]
    {
      hide StateGroup.Value, Apart;
      var now, before := Value(), old(Value());
      forall k: GroupKey ensures k in now && now[k] == (if k == key then stateGroups[key].Value() else before[k]) {
        assert k in stateGroups && k in old(stateGroups);
      }
    }

    method AddToGroup(key: GroupKey, callSign: string)
      requires Valid()
      modifies stateGroups.Values
      ensures Valid() && Value() == AddTo(old(Value()), key, ToUpperCase(callSign))
    {
      stateGroups[key].Add(callSign);
      GroupUpdated(key);
    }

    method DeleteFromGroup(key: GroupKey, callSign: string) returns (result: bool)
      requires Valid()
      modifies stateGroups.Values
      ensures Valid() && Value() == DeleteFrom(old(Value()), key, ToUpperCase(callSign))
      ensures result <==> ToUpperCase(callSign) in old(Value())[key].members
    {
      result := stateGroups[key].Delete(callSign);
      GroupUpdated(key);
    }

    method MarkNewData(key: GroupKey)
      requires Valid()
      modifies stateGroups.Values
      ensures Valid() && Value() == Mark(old(Value()), key)
    {
      stateGroups[key].newData := true;
      GroupUpdated(key);
    }

    /** The newData setter: every group is told. */
    method SetAllNewData(value: bool)
      requires Valid()
      modifies stateGroups.Values
      ensures Valid() && Value() == SetNewData(old(Value()), value)
    {
      hide GroupKeys, StateGroup.Value, Apart;
      SetNewDataOf(GroupKeys(), value);
    }

    method SetNewDataOf(keys: seq<GroupKey>, value: bool)
      requires Valid()
      modifies stateGroups.Values
      ensures forall k :: k in stateGroups ==>
                stateGroups[k].Value() == (if k in keys then old(stateGroups[k].Value()).(newData := value)
                                           else old(stateGroups[k].Value()))
    {
      for i := 0 to |keys|
        invariant forall k :: k in stateGroups ==>
                    stateGroups[k].Value() == (if k in keys[..i] then old(stateGroups[k].Value()).(newData := value)
                                               else old(stateGroups[k].Value()))
      {
        stateGroups[keys[i]].newData := value;
      }
    }

    /** Puts a new group object, holding these keys, in place of the old one. */
    method Replace(key: GroupKey, keys: seq<string>)
      requires Valid()
      modifies this
      ensures Valid() && fresh(stateGroups[key])
      ensures forall o :: o in stateGroups.Values ==> o in old(stateGroups.Values) || fresh(o)
      ensures Value() == old(Value())[key := Group(Collected(keys), false)]
    {
      var group := new StateGroup(keys);
      stateGroups := stateGroups[key := group];
      GroupUpdated(key);
    }
  }

  class StationIndexer {
    var stationIndex: Option<Index>
    var priorStationIndex: Option<Index>
    var changedPropertiesMap: Option<map<string, seq<Property>>>
    var firstRun: bool
    const collection: StateGroupCollection

    ghost predicate Valid()
      reads this, collection
    {
      && collection.Valid()
      && (stationIndex.Some? ==> Clean(stationIndex.value))
      && (priorStationIndex.Some? ==> Clean(priorStationIndex.value))
    }

    ghost function Abstract(): Indexer
      requires Valid()
      reads this, collection, collection.stateGroups.Values
    {
      Indexer(stationIndex, priorStationIndex, changedPropertiesMap, firstRun, collection.Value())
    }

    constructor ()
      ensures Valid() && fresh(collection) && (forall o :: o in collection.stateGroups.Values ==> fresh(o))
      ensures Abstract() == FRESH
    {
      hide StateGroupCollection.Valid, StateGroupCollection.Value, ToUpperCase;
      stationIndex, priorStationIndex, changedPropertiesMap, firstRun := None, None, None, true;
      collection := new StateGroupCollection();
    }

    method HandUpHook(s: Station, changed: seq<Property>)
      requires Valid() && Upper(s.callSign)
      modifies collection.stateGroups.Values
      ensures Valid() && collection.Value() == HandHook(old(collection.Value()), s, changed)
    {
      hide StateGroupCollection.Valid, StateGroupCollection.Value, ToUpperCase;
      if Hand in changed {
        if s.hand {
          collection.AddToGroup(HandUp, s.callSign);
        } else {
          var removed := collection.DeleteFromGroup(HandUp, s.callSign);
        }
      }
    }

    method CheckedInEverHook(s: Station, changed: seq<Property>, prior: Option<Station>)
      requires Valid() && Upper(s.callSign)
      modifies collection.stateGroups.Values
      ensures Valid() && collection.Value() == CheckedInHook(old(collection.Value()), s, changed, prior)
    {
      hide StateGroupCollection.Valid, StateGroupCollection.Value, ToUpperCase;
      if CheckedState in changed || prior.None? {
        if s.checkedState.Some? {
          collection.AddToGroup(CheckedInEver, s.callSign);
        } else {
          var removed := collection.DeleteFromGroup(CheckedInEver, s.callSign);
        }
        if prior.None? || s.checkedState.Some? != prior.value.checkedState.Some? {
          collection.MarkNewData(CheckedInEver);
        }
      }
    }

    method CheckOutHook(s: Station, changed: seq<Property>)
      requires Valid() && Upper(s.callSign)
      modifies collection.stateGroups.Values
      ensures Valid() && collection.Value() == CheckedOutHook(old(collection.Value()), s, changed)
    {
      hide StateGroupCollection.Valid, StateGroupCollection.Value, ToUpperCase;
      if CheckedState in changed {
        if s.checkedState == Some(false) {
          collection.AddToGroup(CheckedOut, s.callSign);
        } else {
          var removed := collection.DeleteFromGroup(CheckedOut, s.callSign);
        }
        collection.MarkNewData(CheckedOut);
      }
    }

    method LeaveIfPrior(s: Station, prior: Option<Station>, role: Role, key: GroupKey)
      requires Valid() && Upper(s.callSign)
      modifies collection.stateGroups.Values
      ensures Valid() && collection.Value() == DeleteIfPrior(old(collection.Value()), s, prior, role, key)
    {
      hide StateGroupCollection.Valid, StateGroupCollection.Value, ToUpperCase;
      if prior.Some? && prior.value.role == role {
        var removed := collection.DeleteFromGroup(key, s.callSign);
      }
    }

    method RolesHook(s: Station, changed: seq<Property>, prior: Option<Station>)
      requires Valid() && Upper(s.callSign)
      modifies collection.stateGroups.Values
      ensures Valid() && collection.Value() == RoleHook(old(collection.Value()), s, changed, prior)
    {
      hide StateGroupCollection.Valid, StateGroupCollection.Value, ToUpperCase, AddTo, DeleteIfPrior;
      if StationRole in changed {
        match s.role
        case NetLogger =>
          collection.AddToGroup(Loggers, s.callSign);
          LeaveIfPrior(s, prior, NetRelay, Relays);
          LeaveIfPrior(s, prior, NetControl, NetControls);
        case NetRelay =>
          collection.AddToGroup(Relays, s.callSign);
          LeaveIfPrior(s, prior, NetLogger, Loggers);
          LeaveIfPrior(s, prior, NetControl, NetControls);
        case NetControl =>
          collection.AddToGroup(NetControls, s.callSign);
          LeaveIfPrior(s, prior, NetLogger, Loggers);
          LeaveIfPrior(s, prior, NetRelay, Relays);
        case NetUser =>
          LeaveIfPrior(s, prior, NetLogger, Loggers);
          LeaveIfPrior(s, prior, NetRelay, Relays);
          LeaveIfPrior(s, prior, NetControl, NetControls);
      }
    }

    method RunHooks(current: Station, changed: seq<Property>, prior: Option<Station>)
      requires Valid() && changed == Changed(current, prior) && Upper(current.callSign)
      modifies collection.stateGroups.Values
      ensures Valid() && collection.Value() == Touch(old(collection.Value()), current, prior)
    {
      hide StateGroupCollection.Valid, StateGroupCollection.Value, ToUpperCase, HandHook, CheckedInHook,
        CheckedOutHook, RoleHook, Changed;
      HandUpHook(current, changed);
      CheckedInEverHook(current, changed, prior);
      CheckOutHook(current, changed);
      RolesHook(current, changed, prior);
    }

    /** Walks the index in order, notes each station's changed properties and runs the four hooks on it. */
    method ProcessPerStationDiffs()
      requires Valid() && stationIndex.Some?
      modifies this`changedPropertiesMap, collection.stateGroups.Values
      ensures Valid()
      ensures collection.Value() == TouchAll(old(collection.Value()), stationIndex.value, priorStationIndex)
      ensures changedPropertiesMap == Some(DiffIndex(stationIndex.value, priorStationIndex))
    {
      hide StateGroupCollection.Valid, StateGroupCollection.Value, ToUpperCase, Touch, Changed, FindPrior;
      var index := stationIndex.value;
      var changedMap: map<string, seq<Property>> := map[];
      for i := 0 to |index|
        invariant Valid()
        invariant collection.Value() == TouchAll(old(collection.Value()), index[..i], priorStationIndex)
        invariant changedMap == DiffIndex(index[..i], priorStationIndex)
      {
        var current := index[i];
        var prior := FindPrior(priorStationIndex, current.callSign);
        var changed := Changed(current, prior);
        if changed != [] {
          changedMap := changedMap[current.callSign := changed];
        }
        assert index[..i + 1][..i] == index[..i];
        RunHooks(current, changed, prior);
      }
      assert index[..|index|] == index;
      changedPropertiesMap := Some(changedMap);
    }

    /** The element-wise comparison of the two key lists. */
    method OrderChanged(before: seq<string>, current: seq<string>) returns (orderChanged: bool)
      ensures orderChanged <==> before != current
    {
      if |before| != |current| {
        return true;
      }
      for i := 0 to |before|
        invariant before[..i] == current[..i]
      {
        if before[i] != current[i] {
          return true;
        }
      }
      assert before[..|before|] == before && current[..|before|] == current;
      return false;
    }

    /** Rebuilds attendees, tells whether the list changed, and drops departed checked-in stations. */
    method ProcessAggregateDiffs()
      requires Valid() && stationIndex.Some? && (firstRun <==> priorStationIndex.None?)
      modifies collection, collection.stateGroups.Values
      ensures Valid()
      ensures collection.Value() == Aggregate(old(collection.Value()), stationIndex.value, priorStationIndex)
      ensures forall o :: o in collection.stateGroups.Values ==> o in old(collection.stateGroups.Values) || fresh(o)
    {
      hide StateGroupCollection.Valid, StateGroupCollection.Value, ToUpperCase, Upper, Clean, Collected, Find,
        CallSigns, Missing;
      var current := CallSigns(stationIndex.value);
      CleanKeys(stationIndex.value);
      collection.Replace(Attendees, current);
      if firstRun {
        collection.MarkNewData(Attendees);
      }
      if priorStationIndex.Some? {
        var before := CallSigns(priorStationIndex.value);
        CleanKeys(priorStationIndex.value);
        var added, removed := Missing(current, before), Missing(before, current);
        var orderChanged := OrderChanged(before, current);
        if added != [] || removed != [] || orderChanged {
          collection.MarkNewData(Attendees);
        }
        ghost var changed := added != [] || removed != [] || before != current;
        assert collection.Value() == old(collection.Value())[Attendees := Group(current, changed)];
        DropDeparted(removed, priorStationIndex.value);
      }
    }

    method DropDeparted(removed: seq<string>, prior: Index)
      requires Valid() && forall c :: c in removed ==> Upper(c)
      modifies collection.stateGroups.Values
      ensures Valid() && collection.Value() == Depart(old(collection.Value()), removed, prior)
    {
      hide StateGroupCollection.Valid, StateGroupCollection.Value, ToUpperCase, Find, DeleteFrom, Mark;
      for i := 0 to |removed|
        invariant Valid()
        invariant collection.Value() == Depart(old(collection.Value()), removed[..i], prior)
      {
        assert removed[..i + 1][..i] == removed[..i] && removed[i] in removed;
        var p := Find(prior, removed[i]);
        if p.Some? && p.value.checkedState == Some(true) {
          var deleted := collection.DeleteFromGroup(CheckedInEver, removed[i]);
          collection.MarkNewData(CheckedInEver);
        }
      }
      assert removed[..|removed|] == removed;
    }

    /** Processes one snapshot, or refuses it before anything has changed. */
    method ProcessStations(snapshot: Index, clientKnown: bool) returns (outcome: Option<ProcessError>)
      requires Valid() && Clean(snapshot)
      modifies this, collection, collection.stateGroups.Values
      ensures Valid()
      ensures Process(old(Abstract()), snapshot, clientKnown)
           == if outcome.Some? then Refused(outcome.value) else Processed(Abstract())
      ensures outcome.Some? ==> Abstract() == old(Abstract())
    {
      hide StateGroupCollection.Valid, StateGroupCollection.Value, ToUpperCase, TouchAll, Aggregate, DiffIndex,
        SetNewData, CallSigns;
      if !clientKnown {
        return Some(NoClientCallSign);
      }
      if snapshot == [] {
        return Some(NoStations);
      }
      priorStationIndex := stationIndex;
      firstRun := priorStationIndex.None?;
      stationIndex := Some(snapshot);
      collection.SetAllNewData(firstRun);
      ProcessPerStationDiffs();
      ProcessAggregateDiffs();
      return None;
    }
  }
}

/** The order of the groups: who stays keeps their order, and newcomers follow in the order of the snapshot. */
module StationOrder {
  import opened Wrappers
  import opened Sequences
  import opened StationGroups
  import opened StationFacts

  /** At most one call sign has joined at the end or left its place. */
  ghost predicate OneChange(before: seq<string>, after: seq<string>, c: string) {
    || after == before
    || (c !in before && after == before + [c])
    || (c in before && after == Select(before, Elems(before) - {c}))
  }

  lemma AddIsOne(g: Groups, at: GroupKey, c: string, key: GroupKey)
    ensures key == at ==> OneChange(g[key].members, AddTo(g, at, c)[key].members, c)
    ensures key != at ==> AddTo(g, at, c)[key].members == g[key].members
    ensures key == at ==> OneChange(g[key].members, DeleteFrom(g, at, c)[key].members, c)
    ensures key != at ==> DeleteFrom(g, at, c)[key].members == g[key].members
    ensures Mark(g, at)[key].members == g[key].members
  {
    hide Select;
  }

  lemma HandIsOne(g: Groups, s: Station, changed: seq<Property>, key: GroupKey)
    ensures if key.HandUp? then OneChange(g[key].members, HandHook(g, s, changed)[key].members, s.callSign)
            else HandHook(g, s, changed)[key].members == g[key].members
  {
    hide AddTo, DeleteFrom;
    AddIsOne(g, HandUp, s.callSign, key);
  }

  lemma CheckedInIsOne(g: Groups, s: Station, changed: seq<Property>, prior: Option<Station>, key: GroupKey)
    ensures var r := CheckedInHook(g, s, changed, prior);
            if key.CheckedInEver? then OneChange(g[key].members, r[key].members, s.callSign)
            else r[key].members == g[key].members
  {
    hide AddTo, DeleteFrom, Mark;
    AddIsOne(g, CheckedInEver, s.callSign, key);
    AddIsOne(AddTo(g, CheckedInEver, s.callSign), CheckedInEver, s.callSign, key);
    AddIsOne(DeleteFrom(g, CheckedInEver, s.callSign), CheckedInEver, s.callSign, key);
  }

  lemma CheckedOutIsOne(g: Groups, s: Station, changed: seq<Property>, key: GroupKey)
    ensures var r := CheckedOutHook(g, s, changed);
            if key.CheckedOut? then OneChange(g[key].members, r[key].members, s.callSign)
            else r[key].members == g[key].members
  {
    hide AddTo, DeleteFrom, Mark;
    AddIsOne(g, CheckedOut, s.callSign, key);
    AddIsOne(AddTo(g, CheckedOut, s.callSign), CheckedOut, s.callSign, key);
    AddIsOne(DeleteFrom(g, CheckedOut, s.callSign), CheckedOut, s.callSign, key);
  }

  lemma LeaveIsOne(g: Groups, s: Station, prior: Option<Station>, role: Role, at: GroupKey, key: GroupKey)
    ensures if key == at then OneChange(g[key].members, DeleteIfPrior(g, s, prior, role, at)[key].members, s.callSign)
            else DeleteIfPrior(g, s, prior, role, at)[key].members == g[key].members
  {
    hide DeleteFrom;
    AddIsOne(g, at, s.callSign, key);
  }

  lemma JoinIsOne(g: Groups, s: Station, prior: Option<Station>, own: GroupKey, role1: Role, key1: GroupKey,
                  role2: Role, key2: GroupKey, key: GroupKey)
    requires own != key1 && own != key2 && key1 != key2
    ensures var added := AddTo(g, own, s.callSign);
            var r := DeleteIfPrior(DeleteIfPrior(added, s, prior, role1, key1), s, prior, role2, key2);
            if key == own || key == key1 || key == key2 then OneChange(g[key].members, r[key].members, s.callSign)
            else r[key].members == g[key].members
  {
    hide AddTo, DeleteIfPrior;
    var added := AddTo(g, own, s.callSign);
    AddIsOne(g, own, s.callSign, key);
    LeaveIsOne(added, s, prior, role1, key1, key);
    LeaveIsOne(DeleteIfPrior(added, s, prior, role1, key1), s, prior, role2, key2, key);
  }

  lemma RoleIsOne(g: Groups, s: Station, changed: seq<Property>, prior: Option<Station>, key: GroupKey)
    ensures var r := RoleHook(g, s, changed, prior);
            if key.Loggers? || key.Relays? || key.NetControls?
            then OneChange(g[key].members, r[key].members, s.callSign)
            else r[key].members == g[key].members
  {
    hide AddTo, DeleteIfPrior, OneChange;
    Unchanged(g, key, s.callSign);
    match s.role
    case NetLogger => JoinIsOne(g, s, prior, Loggers, NetRelay, Relays, NetControl, NetControls, key);
    case NetRelay => JoinIsOne(g, s, prior, Relays, NetLogger, Loggers, NetControl, NetControls, key);
    case NetControl => JoinIsOne(g, s, prior, NetControls, NetLogger, Loggers, NetRelay, Relays, key);
    case NetUser =>
      var left := DeleteIfPrior(g, s, prior, NetLogger, Loggers);
      LeaveIsOne(g, s, prior, NetLogger, Loggers, key);
      LeaveIsOne(left, s, prior, NetRelay, Relays, key);
      LeaveIsOne(DeleteIfPrior(left, s, prior, NetRelay, Relays), s, prior, NetControl, NetControls, key);
  }

  lemma Unchanged(g: Groups, key: GroupKey, c: string)
    ensures OneChange(g[key].members, g[key].members, c)
  {
  }

  /** A station's hooks change no group by more than that one call sign. */
  lemma TouchIsOne(g: Groups, s: Station, prior: Option<Station>, key: GroupKey)
    ensures OneChange(g[key].members, Touch(g, s, prior)[key].members, s.callSign)
  {
    hide Changed, HandHook, CheckedInHook, CheckedOutHook, RoleHook, OneChange;
    var changed := Changed(s, prior);
    var g1 := HandHook(g, s, changed);
    var g2 := CheckedInHook(g1, s, changed, prior);
    HandIsOne(g, s, changed, key);
    CheckedInIsOne(g1, s, changed, prior, key);
    CheckedOutIsOne(g2, s, changed, key);
    RoleIsOne(CheckedOutHook(g2, s, changed), s, changed, prior, key);
    Unchanged(g, key, s.callSign);
  }

  // ----- Lists -----

  /** Those who stay, in their old order, and behind them those who come, in the order they are listed. */
  ghost predicate StaysThenComes(before: seq<string>, listed: seq<string>, after: seq<string>) {
    after == Select(before, Elems(after)) + Select(listed, Elems(after) - Elems(before))
  }

  lemma NobodyComes(before: seq<string>)
    ensures StaysThenComes(before, [], before)
  {
    SelectAll(before, Elems(before));
  }

  lemma ListedNext(before: seq<string>, listed: seq<string>, middle: seq<string>, after: seq<string>, c: string)
    requires StaysThenComes(before, listed, middle) && OneChange(middle, after, c)
    requires c !in listed && (c in middle <==> c in before)
    ensures StaysThenComes(before, listed + [c], after)
  {
    hide Select;
    SelectConcat(listed, [c], Elems(after) - Elems(before));
    SelectOne(c, Elems(after) - Elems(before));
    if c !in middle && after == middle + [c] {
      SelectCongruence(before, Elems(middle), Elems(after));
      SelectCongruence(listed, Elems(middle) - Elems(before), Elems(after) - Elems(before));
    } else if after != middle {
      FilteredFurther(before, listed, middle, after, Elems(middle) - {c});
    }
  }

  lemma SelectOne(c: string, keep: set<string>)
    ensures Select([c], keep) == if c in keep then [c] else []
  {
  }

  /** Dropping some from such a list leaves such a list. */
  lemma FilteredFurther(before: seq<string>, listed: seq<string>, middle: seq<string>, after: seq<string>,
                        keep: set<string>)
    requires StaysThenComes(before, listed, middle) && after == Select(middle, keep)
    ensures StaysThenComes(before, listed, after)
  {
    hide Select;
    var stay, come := Elems(middle), Elems(middle) - Elems(before);
    SelectConcat(Select(before, stay), Select(listed, come), keep);
    SelectSelect(before, stay, keep);
    SelectSelect(listed, come, keep);
    SelectCongruence(before, stay * keep, Elems(after));
    SelectCongruence(listed, come * keep, Elems(after) - Elems(before));
  }

  // ----- One snapshot -----

  lemma {:induction false} CallSignsAppend(init: Index, last: Station)
    ensures CallSigns(init + [last]) == CallSigns(init) + [last.callSign]
  {
    if init == [] {
      assert [] + [last] == [last];
    } else {
      assert (init + [last])[1..] == init[1..] + [last];
      CallSignsAppend(init[1..], last);
    }
  }

  lemma NotListed(index: Index)
    requires index != [] && UniqueCallSigns(index)
    ensures index[|index| - 1].callSign !in CallSigns(index[..|index| - 1])
    ensures CallSigns(index) == CallSigns(index[..|index| - 1]) + [index[|index| - 1].callSign]
  {
    hide CallSigns, Find, UniqueCallSigns;
    var init, last := index[..|index| - 1], index[|index| - 1];
    LastIsNew(index);
    FindPresent(init, last.callSign);
    CallSignsAppend(init, last);
    assert index == init + [last];
  }

  lemma {:induction false} TouchAllOrder(g: Groups, index: Index, prior: Option<Index>, key: GroupKey)
    requires UniqueCallSigns(index)
    ensures StaysThenComes(g[key].members, CallSigns(index), TouchAll(g, index, prior)[key].members)
  {
    hide Touch, StaysThenComes, OneChange, Find, CallSigns;
    if index == [] {
      NobodyComes(g[key].members);
      assert CallSigns(index) == [];
    } else {
      var init, last := index[..|index| - 1], index[|index| - 1];
      var middle := TouchAll(g, init, prior);
      TouchAllOrder(g, init, prior, key);
      TouchAllAt(g, init, prior, key, last.callSign);
      LastIsNew(index);
      NotListed(index);
      TouchIsOne(middle, last, FindPrior(prior, last.callSign), key);
      ListedNext(g[key].members, CallSigns(init), middle[key].members, TouchAll(g, index, prior)[key].members,
                 last.callSign);
    }
  }

  lemma {:induction false} DepartFilters(g: Groups, removed: seq<string>, prior: Index, key: GroupKey)
    returns (keep: set<string>)
    ensures Depart(g, removed, prior)[key].members == Select(g[key].members, keep)
  {
    hide Find, Select;
    var members := g[key].members;
    if removed == [] {
      keep := Elems(members);
      SelectAll(members, keep);
    } else {
      var rest := Depart(g, removed[..|removed| - 1], prior);
      keep := DepartFilters(g, removed[..|removed| - 1], prior, key);
      var c := removed[|removed| - 1];
      if Depart(g, removed, prior)[key].members != rest[key].members {
        SelectSelect(members, keep, Elems(rest[key].members) - {c});
        keep := keep * (Elems(rest[key].members) - {c});
      }
    }
  }

  lemma AggregateFilters(g: Groups, index: Index, prior: Option<Index>, key: GroupKey) returns (keep: set<string>)
    requires !key.Attendees?
    ensures Aggregate(g, index, prior)[key].members == Select(g[key].members, keep)
  {
    hide Depart, Missing, CallSigns, Select;
    if prior.None? {
      keep := Elems(g[key].members);
      SelectAll(g[key].members, keep);
    } else {
      var current, before := CallSigns(index), CallSigns(prior.value);
      var changed := Missing(current, before) != [] || Missing(before, current) != [] || before != current;
      keep := DepartFilters(g[Attendees := Group(current, changed)], Missing(before, current), prior.value, key);
    }
  }

  /**
   Every group but attendees is in order: after a snapshot, those of its members who stay come first, as
   they stood, and those who join follow in the order the snapshot lists them.
   */
  lemma GroupOrderExactly(h: History, key: GroupKey)
    requires ValidHistory(h) && h != [] && !key.Attendees?
    ensures StaysThenComes(AfterAll(h[..|h| - 1]).groups[key].members, CallSigns(h[|h| - 1]),
                           AfterAll(h).groups[key].members)
  {
    hide TouchAll, Aggregate, CallSigns, StaysThenComes;
    var i := AfterAll(h[..|h| - 1]);
    var g := SetNewData(i.groups, i.index.None?);
    assert g[key].members == i.groups[key].members;
    TouchAllOrder(g, h[|h| - 1], i.index, key);
    var touched := TouchAll(g, h[|h| - 1], i.index);
    var keep := AggregateFilters(touched, h[|h| - 1], i.index, key);
    FilteredFurther(g[key].members, CallSigns(h[|h| - 1]), touched[key].members, AfterAll(h).groups[key].members, keep);
  }
}

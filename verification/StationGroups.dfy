/**
 The station index and its groups as values: what one snapshot does to them. Groups are kept by
 differences from the previous snapshot, never recomputed.
 */
module StationGroups {
  import opened Wrappers
  import opened Sequences

  datatype Role = NetControl | NetLogger | NetRelay | NetUser

  datatype Presence = Online | Offline

  datatype Station = Station(callSign: string, displayName: Option<string>, location: Option<string>,
                             checkedState: Option<bool>, hand: bool, role: Role, highlight: bool,
                             presence: Presence, level: int, photo: Option<string>,
                             averageSigReport: Option<string>, chatEnabled: bool)

  datatype Property =
    | DisplayName | Location | CheckedState | Hand | StationRole | Highlight
    | StationPresence | Level | CallSign | Photo | AverageSigReport | ChatEnabled

  const PROPERTIES_OF_INTEREST :=
    [DisplayName, Location, CheckedState, Hand, StationRole, Highlight,
     StationPresence, Level, CallSign, Photo, AverageSigReport, ChatEnabled]

  /** The property has a different value in the two records. */
  predicate Differs(property: Property, a: Station, b: Station) {
    match property
    case DisplayName => a.displayName != b.displayName
    case Location => a.location != b.location
    case CheckedState => a.checkedState != b.checkedState
    case Hand => a.hand != b.hand
    case StationRole => a.role != b.role
    case Highlight => a.highlight != b.highlight
    case StationPresence => a.presence != b.presence
    case Level => a.level != b.level
    case CallSign => a.callSign != b.callSign
    case Photo => a.photo != b.photo
    case AverageSigReport => a.averageSigReport != b.averageSigReport
    case ChatEnabled => a.chatEnabled != b.chatEnabled
  }

  function Differing(properties: seq<Property>, a: Station, b: Station): (r: seq<Property>)
    ensures forall p :: p in r <==> p in properties && Differs(p, a, b)
  {
    if properties == [] then []
    else
      var rest := Differing(properties[1..], a, b);
      if Differs(properties[0], a, b) then [properties[0]] + rest else rest
  }

  /** What has changed since the prior record: everything of interest, when there is none. */
  function Changed(current: Station, prior: Option<Station>): seq<Property> {
    if prior.Some? then Differing(PROPERTIES_OF_INTEREST, current, prior.value) else PROPERTIES_OF_INTEREST
  }

  // ----- The index -----

  /** The insertion-ordered map from call signs to stations, as the list it was built from. */
  type Index = seq<Station>

  function Find(index: Index, callSign: string): (r: Option<Station>)
    ensures r.Some? ==> r.value in index && r.value.callSign == callSign
    ensures r.None? ==> forall s :: s in index ==> s.callSign != callSign
  {
    if index == [] then None
    else if index[0].callSign == callSign then Some(index[0])
    else Find(index[1..], callSign)
  }

  function FindPrior(prior: Option<Index>, callSign: string): Option<Station> {
    if prior.None? then None else Find(prior.value, callSign)
  }

  function CallSigns(index: Index): (r: seq<string>)
    ensures |r| == |index| && forall i :: 0 <= i < |index| ==> r[i] == index[i].callSign
  {
    if index == [] then [] else [index[0].callSign] + CallSigns(index[1..])
  }

  ghost predicate UniqueCallSigns(index: Index) {
    forall i, j :: 0 <= i < j < |index| ==> index[i].callSign != index[j].callSign
  }

  // ----- Upper case -----

  function UpperChar(c: char): char {
    if 'a' <= c <= 'z' then c - 'a' + 'A' else c
  }

  /** toUpperCase, on the letters call signs are made of. */
  function ToUpperCase(s: string): string {
    seq(|s|, i requires 0 <= i < |s| => UpperChar(s[i]))
  }

  /** Each small letter has become its capital, and everything else is as it was. */
  lemma UpperCaseExactly(s: string, i: nat)
    requires i < |s|
    ensures var r := ToUpperCase(s);
            && |r| == |s|
            && ('a' <= s[i] <= 'z' ==> 'A' <= r[i] <= 'Z' && r[i] - 'A' == s[i] - 'a')
            && (!('a' <= s[i] <= 'z') ==> r[i] == s[i])
  {
  }

  predicate Upper(s: string) {
    ToUpperCase(s) == s
  }

  /** Call signs are in upper case and no two stations share one. */
  ghost predicate Clean(index: Index) {
    (forall s :: s in index ==> Upper(s.callSign)) && UniqueCallSigns(index)
  }

  // ----- Groups -----

  datatype GroupKey = HandUp | CheckedInEver | Loggers | Relays | Attendees | CheckedOut | NetControls

  /** A StateGroup: an insertion-ordered set of call signs, and whether it has new data. */
  datatype Group = Group(members: seq<string>, newData: bool) {
    function Add(callSign: string): Group {
      Group(if callSign in members then members else members + [callSign], true)
    }

    function Delete(callSign: string): Group {
      if callSign in members then Group(Select(members, Elems(members) - {callSign}), true) else this
    }
  }

  const EMPTY := Group([], false)

  function AllEmpty(): (m: map<GroupKey, Group>)
    ensures forall k: GroupKey :: k in m && m[k] == EMPTY
  {
    var m := map[HandUp := EMPTY, CheckedInEver := EMPTY, Loggers := EMPTY, Relays := EMPTY,
                 Attendees := EMPTY, CheckedOut := EMPTY, NetControls := EMPTY];
    assert forall k: GroupKey :: k in m && m[k] == EMPTY by {
      forall k: GroupKey ensures k in m && m[k] == EMPTY {
        assert k.HandUp? || k.CheckedInEver? || k.Loggers? || k.Relays? || k.Attendees? || k.CheckedOut?
            || k.NetControls?;
      }
    }
    m
  }

  /** The collection has every group. */
  type Groups = m: map<GroupKey, Group> | forall k: GroupKey :: k in m
    witness AllEmpty()

  function AddTo(g: Groups, key: GroupKey, callSign: string): Groups {
    g[key := g[key].Add(callSign)]
  }

  function DeleteFrom(g: Groups, key: GroupKey, callSign: string): Groups {
    g[key := g[key].Delete(callSign)]
  }

  function Mark(g: Groups, key: GroupKey): Groups {
    g[key := g[key].(newData := true)]
  }

  function SetNewData(g: Groups, value: bool): Groups {
    map k: GroupKey | k in g :: g[k].(newData := value)
  }

  // ----- The per-station hooks -----

  function HandHook(g: Groups, s: Station, changed: seq<Property>): Groups {
    if Hand !in changed then g
    else if s.hand then AddTo(g, HandUp, s.callSign)
    else DeleteFrom(g, HandUp, s.callSign)
  }

  function CheckedInHook(g: Groups, s: Station, changed: seq<Property>, prior: Option<Station>): Groups {
    if CheckedState !in changed && prior.Some? then g
    else
      var g1 := if s.checkedState.Some? then AddTo(g, CheckedInEver, s.callSign)
                else DeleteFrom(g, CheckedInEver, s.callSign);
      if prior.None? || s.checkedState.Some? != prior.value.checkedState.Some?
      then Mark(g1, CheckedInEver) else g1
  }

  function CheckedOutHook(g: Groups, s: Station, changed: seq<Property>): Groups {
    if CheckedState !in changed then g
    else
      var g1 := if s.checkedState == Some(false) then AddTo(g, CheckedOut, s.callSign)
                else DeleteFrom(g, CheckedOut, s.callSign);
      Mark(g1, CheckedOut)
  }

  function RoleGroup(role: Role): Option<GroupKey> {
    match role
    case NetLogger => Some(Loggers)
    case NetRelay => Some(Relays)
    case NetControl => Some(NetControls)
    case NetUser => None
  }

  function DeleteIfPrior(g: Groups, s: Station, prior: Option<Station>, role: Role, key: GroupKey): Groups {
    if prior.Some? && prior.value.role == role then DeleteFrom(g, key, s.callSign) else g
  }

  function RoleHook(g: Groups, s: Station, changed: seq<Property>, prior: Option<Station>): Groups {
    if StationRole !in changed then g
    else
      match s.role
      case NetLogger =>
        DeleteIfPrior(DeleteIfPrior(AddTo(g, Loggers, s.callSign), s, prior, NetRelay, Relays),
                      s, prior, NetControl, NetControls)
      case NetRelay =>
        DeleteIfPrior(DeleteIfPrior(AddTo(g, Relays, s.callSign), s, prior, NetLogger, Loggers),
                      s, prior, NetControl, NetControls)
      case NetControl =>
        DeleteIfPrior(DeleteIfPrior(AddTo(g, NetControls, s.callSign), s, prior, NetLogger, Loggers),
                      s, prior, NetRelay, Relays)
      case NetUser =>
        DeleteIfPrior(DeleteIfPrior(DeleteIfPrior(g, s, prior, NetLogger, Loggers), s, prior, NetRelay, Relays),
                      s, prior, NetControl, NetControls)
  }

  /** All four hooks for one station. */
  function Touch(g: Groups, s: Station, prior: Option<Station>): Groups {
    var changed := Changed(s, prior);
    RoleHook(CheckedOutHook(CheckedInHook(HandHook(g, s, changed), s, changed, prior), s, changed), s, changed, prior)
  }

  /** The hooks run over the index in order. */
  function TouchAll(g: Groups, index: Index, prior: Option<Index>): Groups {
    if index == [] then g
    else
      var last := index[|index| - 1];
      Touch(TouchAll(g, index[..|index| - 1], prior), last, FindPrior(prior, last.callSign))
  }

  /** The difference index: the changed properties of each station that has any. */
  function DiffIndex(index: Index, prior: Option<Index>): map<string, seq<Property>> {
    if index == [] then map[]
    else
      var last := index[|index| - 1];
      var rest := DiffIndex(index[..|index| - 1], prior);
      var changed := Changed(last, FindPrior(prior, last.callSign));
      if changed != [] then rest[last.callSign := changed] else rest
  }

  // ----- The aggregate pass -----

  function Missing(from: seq<string>, other: seq<string>): (r: seq<string>)
    ensures forall c :: c in r <==> c in from && c !in other
  {
    if from == [] then []
    else if from[0] in other then Missing(from[1..], other)
    else [from[0]] + Missing(from[1..], other)
  }

  /** Departed stations that were checked in when last seen leave the checked-in group. */
  function Depart(g: Groups, removed: seq<string>, prior: Index): Groups {
    if removed == [] then g
    else
      var rest := Depart(g, removed[..|removed| - 1], prior);
      var c := removed[|removed| - 1];
      var p := Find(prior, c);
      if p.Some? && p.value.checkedState == Some(true) then Mark(DeleteFrom(rest, CheckedInEver, c), CheckedInEver)
      else rest
  }

  function Aggregate(g: Groups, index: Index, prior: Option<Index>): Groups {
    var current := CallSigns(index);
    if prior.None? then g[Attendees := Group(current, true)]
    else
      var before := CallSigns(prior.value);
      var changed := Missing(current, before) != [] || Missing(before, current) != [] || before != current;
      Depart(g[Attendees := Group(current, changed)], Missing(before, current), prior.value)
  }

  // ----- One snapshot -----

  datatype Indexer = Indexer(index: Option<Index>, prior: Option<Index>, changed: Option<map<string, seq<Property>>>,
                             firstRun: bool, groups: Groups)

  const FRESH := Indexer(None, None, None, true, AllEmpty())

  /** Why process throws, before it has touched anything. */
  datatype ProcessError = NoClientCallSign | NoStations

  datatype Outcome = Processed(indexer: Indexer) | Refused(error: ProcessError)

  function ProcessSnapshot(i: Indexer, snapshot: Index): Indexer {
    var firstRun := i.index.None?;
    var touched := TouchAll(SetNewData(i.groups, firstRun), snapshot, i.index);
    Indexer(Some(snapshot), i.index, Some(DiffIndex(snapshot, i.index)), firstRun,
            Aggregate(touched, snapshot, i.index))
  }

  /** A snapshot is refused while the client's call sign is unknown, or when it has no stations. */
  function Process(i: Indexer, snapshot: Index, clientKnown: bool): Outcome {
    if !clientKnown then Refused(NoClientCallSign)
    else if snapshot == [] then Refused(NoStations)
    else Processed(ProcessSnapshot(i, snapshot))
  }
}

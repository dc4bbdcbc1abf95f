/** One net at a time: nets do not disturb each other, and a net whose calls have stopped is soon quiet. */
module PushNets {
  import opened PushRuns

  // ----- Independence -----

  /** What happened for one net, without the numbers its promises were given. */
  datatype NetEvent = CallSeen(permit: bool) | RunStarted(permit: bool) | RunFinished | RunFailed

  function Seen(e: Event): NetEvent
    requires !e.Settled?
  {
    match e
    case Called(_, permit, _) => CallSeen(permit)
    case Started(_, _, permit) => RunStarted(permit)
    case Finished(_, _) => RunFinished
    case Failed(_, _) => RunFailed
  }

  /** The history of one net. */
  function Projected(log: seq<Event>, npid: string): seq<NetEvent> {
    if log == [] then []
    else
      var rest, e := Projected(log[..|log| - 1], npid), log[|log| - 1];
      if e.Settled? || e.npid != npid then rest else rest + [Seen(e)]
  }

  predicate About(a: Action, npid: string) {
    !a.Settle? && a.npid == npid
  }

  /** The actions about one net. */
  function Only(actions: seq<Action>, npid: string): seq<Action> {
    if actions == [] then []
    else
      var rest, a := Only(actions[..|actions| - 1], npid), actions[|actions| - 1];
      if About(a, npid) then rest + [a] else rest
  }

  /** Two machines agree about a net, up to the number of its promise. */
  ghost predicate SameNet(m: Machine, n: Machine, npid: string) {
    && (npid in m.states <==> npid in n.states)
    && (npid in m.states ==> m.states[npid] == n.states[npid].(promise := m.states[npid].promise))
    && Projected(m.log, npid) == Projected(n.log, npid)
  }

  lemma ProjectedAppend(log: seq<Event>, e: Event, npid: string)
    ensures Projected(log + [e], npid)
         == Projected(log, npid) + if e.Settled? || e.npid != npid then [] else [Seen(e)]
  {
    assert (log + [e])[..|log|] == log;
  }

  lemma StartTogether(m: Machine, n: Machine, npid: string)
    requires SameNet(m, n, npid) && npid in m.states
    ensures SameNet(StartRun(m, npid), StartRun(n, npid), npid)
  {
    hide Projected;
    ProjectedAppend(m.log, Started(npid, m.states[npid].promise, m.states[npid].nextPermit), npid);
    ProjectedAppend(n.log, Started(npid, n.states[npid].promise, n.states[npid].nextPermit), npid);
  }

  lemma CallTogether(m: Machine, n: Machine, npid: string, permit: bool)
    requires SameNet(m, n, npid)
    ensures SameNet(OnCall(m, npid, permit), OnCall(n, npid, permit), npid)
  {
    hide Projected;
    ProjectedAppend(m.log, Called(npid, permit, if npid in m.states then m.states[npid].promise else m.promises), npid);
    ProjectedAppend(n.log, Called(npid, permit, if npid in n.states then n.states[npid].promise else n.promises), npid);
  }

  /** An action about the net keeps two such machines in agreement. */
  lemma StepTogether(m: Machine, n: Machine, a: Action, npid: string)
    requires SameNet(m, n, npid) && About(a, npid)
    ensures SameNet(Next(m, a), Next(n, a), npid)
  {
    hide Projected, StartRun, OnCall;
    match a
    case Call(_, permit) => CallTogether(m, n, npid, permit);
    case Begin(_) =>
      if Waits(m, npid) {
        StartTogether(m, n, npid);
      }
    case Complete(_) =>
      if Runs(m, npid) {
        var e, f := Finished(npid, m.states[npid].promise), Finished(npid, n.states[npid].promise);
        ProjectedAppend(m.log, e, npid);
        ProjectedAppend(n.log, f, npid);
        if m.states[npid].rerunRequested {
          StartTogether(m.(log := m.log + [e]), n.(log := n.log + [f]), npid);
        }
      }
    case Reject(_) =>
      if Runs(m, npid) {
        ProjectedAppend(m.log, Failed(npid, m.states[npid].promise), npid);
        ProjectedAppend(n.log, Failed(npid, n.states[npid].promise), npid);
      }
  }

  lemma StartElsewhere(m: Machine, other: string, npid: string)
    requires other in m.states && other != npid
    ensures SameNet(StartRun(m, other), m, npid)
  {
    hide Projected;
    ProjectedAppend(m.log, Started(other, m.states[other].promise, m.states[other].nextPermit), npid);
  }

  /** An action about another net, or a settlement, changes nothing about this one. */
  lemma StepAside(m: Machine, a: Action, npid: string)
    requires !About(a, npid)
    ensures SameNet(Next(m, a), m, npid)
  {
    hide Projected, StartRun;
    match a
    case Call(other, permit) =>
      var promise := if other in m.states then m.states[other].promise else m.promises;
      ProjectedAppend(m.log, Called(other, permit, promise), npid);
    case Begin(other) =>
      if Waits(m, other) {
        StartElsewhere(m, other, npid);
      }
    case Complete(other) =>
      if Runs(m, other) {
        var e := Finished(other, m.states[other].promise);
        ProjectedAppend(m.log, e, npid);
        if m.states[other].rerunRequested {
          StartElsewhere(m.(log := m.log + [e]), other, npid);
        }
      }
    case Reject(other) =>
      if Runs(m, other) {
        ProjectedAppend(m.log, Failed(other, m.states[other].promise), npid);
      }
    case Settle(promise) =>
      if promise in m.settling {
        ProjectedAppend(m.log, Settled(promise, m.settling[promise]), npid);
      }
  }

  /**
   Nets are independent: what happens for a net in any interleaving is what happens when the actions
   about that net are taken alone.
   */
  lemma {:induction false} NetsAreIndependent(actions: seq<Action>, npid: string)
    ensures SameNet(Run(actions), Run(Only(actions, npid)), npid)
  {
    hide Next, Projected;
    if actions != [] {
      var init, a := actions[..|actions| - 1], actions[|actions| - 1];
      NetsAreIndependent(init, npid);
      if About(a, npid) {
        var alone := Only(init, npid) + [a];
        assert alone[..|alone| - 1] == Only(init, npid);
        StepTogether(Run(init), Run(Only(init, npid)), a, npid);
      } else {
        StepAside(Run(init), a, npid);
      }
    }
  }

  // ----- Draining -----

  /** The machine after these actions, from any state. */
  function RunFrom(m: Machine, actions: seq<Action>): Machine {
    if actions == [] then m else Next(RunFrom(m, actions[..|actions| - 1]), actions[|actions| - 1])
  }

  ghost predicate NoCalls(actions: seq<Action>, npid: string) {
    forall a :: a in actions ==> !(a.Call? && a.npid == npid)
  }

  /** If the net has a run under way, nobody has asked for another. */
  predicate OnLastRun(m: Machine, npid: string) {
    npid in m.states ==> m.states[npid].running && !m.states[npid].rerunRequested
  }

  /** Without a call, a net goes from waiting to running to its last run to gone, never back. */
  lemma StepsOnward(m: Machine, a: Action, npid: string)
    requires !(a.Call? && a.npid == npid)
    ensures !Waits(m, npid) || a == Begin(npid) ==> !Waits(Next(m, a), npid)
    ensures OnLastRun(m, npid) ==> OnLastRun(Next(m, a), npid)
    ensures npid !in m.states ==> npid !in Next(m, a).states
    ensures a == Complete(npid) && !Waits(m, npid) ==> OnLastRun(Next(m, a), npid)
    ensures a == Complete(npid) && OnLastRun(m, npid) ==> npid !in Next(m, a).states
  {
  }

  lemma {:induction false} BegunStaysBegun(m: Machine, actions: seq<Action>, npid: string)
    requires NoCalls(actions, npid) && (Waits(m, npid) ==> Begin(npid) in actions)
    ensures !Waits(RunFrom(m, actions), npid)
  {
    hide Next;
    if actions != [] {
      var init, a := actions[..|actions| - 1], actions[|actions| - 1];
      assert actions == init + [a];
      StepsOnward(RunFrom(m, init), a, npid);
      if a != Begin(npid) {
        BegunStaysBegun(m, init, npid);
      }
    }
  }

  lemma {:induction false} LastAfterOne(m: Machine, actions: seq<Action>, npid: string, j: nat)
    requires NoCalls(actions, npid) && j < |actions| && actions[j] == Complete(npid)
    requires Waits(m, npid) ==> Begin(npid) in actions[..j]
    ensures OnLastRun(RunFrom(m, actions), npid)
  {
    hide Next;
    var init, a := actions[..|actions| - 1], actions[|actions| - 1];
    assert actions == init + [a];
    StepsOnward(RunFrom(m, init), a, npid);
    if j == |init| {
      BegunStaysBegun(m, init, npid);
    } else {
      assert init[..j] == actions[..j];
      LastAfterOne(m, init, npid, j);
    }
  }

  /**
   Once calls for a net have stopped, at most one run is left besides the one under way: whatever else
   happens in between, from any state, the net is gone after its drain has begun and two of its runs
   have completed.
   */
  lemma {:induction false} DrainsWithinTwoRuns(m: Machine, actions: seq<Action>, npid: string, j: nat, k: nat)
    requires NoCalls(actions, npid) && j < k < |actions|
    requires actions[j] == Complete(npid) && actions[k] == Complete(npid)
    requires Waits(m, npid) ==> Begin(npid) in actions[..j]
    ensures npid !in RunFrom(m, actions).states
  {
    hide Next;
    var init, a := actions[..|actions| - 1], actions[|actions| - 1];
    assert actions == init + [a];
    assert init[..j] == actions[..j];
    StepsOnward(RunFrom(m, init), a, npid);
    if k == |init| {
      LastAfterOne(m, init, npid, j);
    } else {
      DrainsWithinTwoRuns(m, init, npid, j, k);
    }
  }
}

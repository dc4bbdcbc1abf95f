/**
 The push machinery of RealtimeClients as a state machine. Every synchronous segment of JavaScript is
 one step, so a run of the machine is one interleaving of calls, run starts, run ends and settlements.
 The machine keeps the history of what happened, and the claims are about that history.
 */
module PushRuns {
  import opened Wrappers

  /** What happens, in order. A promise is named by the number it was created with. */
  datatype Event =
    | Called(npid: string, permit: bool, promise: nat)
    | Started(npid: string, promise: nat, permit: bool)
    | Finished(npid: string, promise: nat)
    | Failed(npid: string, promise: nat)
    | Settled(promise: nat, ok: bool)

  /** One PushState record, and whether its drain has begun its first run. */
  datatype Entry = Entry(promise: nat, rerunRequested: bool, nextPermit: bool, running: bool)

  /** The push states, the finished drains whose promises have not settled yet, and the history. */
  datatype Machine = Machine(states: map<string, Entry>, settling: map<nat, bool>, promises: nat, log: seq<Event>)

  datatype Action =
    | Call(npid: string, permit: bool)
    | Begin(npid: string)
    | Complete(npid: string)
    | Reject(npid: string)
    | Settle(promise: nat)

  const INITIAL := Machine(map[], map[], 0, [])

  // ----- Steps -----

  function OnCall(m: Machine, npid: string, permit: bool): Machine {
    if npid in m.states then
      var e := m.states[npid];
      m.(states := m.states[npid := e.(rerunRequested := true, nextPermit := e.nextPermit && permit)],
         log := m.log + [Called(npid, permit, e.promise)])
    else
      m.(states := m.states[npid := Entry(m.promises, false, permit, false)],
         promises := m.promises + 1,
         log := m.log + [Called(npid, permit, m.promises)])
  }

  /** The top of the do-loop: read the flag, clear both fields, start pushOnce. */
  function StartRun(m: Machine, npid: string): Machine
    requires npid in m.states
  {
    var e := m.states[npid];
    m.(states := m.states[npid := e.(rerunRequested := false, nextPermit := true, running := true)],
       log := m.log + [Started(npid, e.promise, e.nextPermit)])
  }

  /** The finally block, reached in the same synchronous segment as the last loop test or the throw. */
  function Close(m: Machine, npid: string, ok: bool): Machine
    requires npid in m.states
  {
    m.(states := m.states - {npid}, settling := m.settling[m.states[npid].promise := ok])
  }

  predicate Runs(m: Machine, npid: string) {
    npid in m.states && m.states[npid].running
  }

  predicate Waits(m: Machine, npid: string) {
    npid in m.states && !m.states[npid].running
  }

  /** One step; an action that is not possible changes nothing. */
  function Next(m: Machine, a: Action): Machine {
    match a
    case Call(npid, permit) => OnCall(m, npid, permit)
    case Begin(npid) => if Waits(m, npid) then StartRun(m, npid) else m
    case Complete(npid) =>
      if !Runs(m, npid) then m
      else
        var done := m.(log := m.log + [Finished(npid, m.states[npid].promise)]);
        if m.states[npid].rerunRequested then StartRun(done, npid) else Close(done, npid, true)
    case Reject(npid) =>
      if !Runs(m, npid) then m
      else Close(m.(log := m.log + [Failed(npid, m.states[npid].promise)]), npid, false)
    case Settle(promise) =>
      if promise !in m.settling then m
      else m.(settling := m.settling - {promise}, log := m.log + [Settled(promise, m.settling[promise])])
  }

  /** The machine after any sequence of actions. */
  function Run(actions: seq<Action>): Machine {
    if actions == [] then INITIAL else Next(Run(actions[..|actions| - 1]), actions[|actions| - 1])
  }

  // ----- Reading the history -----

  /** The run of this net that has started and not ended. */
  ghost function OpenRun(log: seq<Event>, npid: string): Option<nat> {
    if log == [] then None
    else
      var init, e := log[..|log| - 1], log[|log| - 1];
      if e.Started? && e.npid == npid then Some(e.promise)
      else if (e.Finished? || e.Failed?) && e.npid == npid then None
      else OpenRun(init, npid)
  }

  /** The index of the promise's last run start, -1 if there is none. */
  ghost function LastStart(log: seq<Event>, promise: nat): (k: int)
    ensures -1 <= k < |log|
  {
    if log == [] then -1
    else
      var e := log[|log| - 1];
      if e.Started? && e.promise == promise then |log| - 1 else LastStart(log[..|log| - 1], promise)
  }

  /** A call answered with this promise has arrived since its last run started. */
  ghost predicate Waiting(log: seq<Event>, promise: nat) {
    exists i :: LastStart(log, promise) < i < |log| && log[i].Called? && log[i].promise == promise
  }

  /** Every call answered with this promise since its last run started allows a cached response. */
  ghost predicate AllPermit(log: seq<Event>, promise: nat) {
    forall i :: LastStart(log, promise) < i < |log| && log[i].Called? && log[i].promise == promise ==> log[i].permit
  }

  /** All events of this promise so far belong to this net. */
  ghost predicate OwnedBy(log: seq<Event>, promise: nat, npid: string) {
    forall i :: 0 <= i < |log| && !log[i].Settled? && log[i].promise == promise ==> log[i].npid == npid
  }

  ghost predicate HasFailed(log: seq<Event>, promise: nat) {
    exists i :: 0 <= i < |log| && log[i].Failed? && log[i].promise == promise
  }

  function CallCount(log: seq<Event>, npid: string): nat {
    if log == [] then 0
    else CallCount(log[..|log| - 1], npid) + (if log[|log| - 1].Called? && log[|log| - 1].npid == npid then 1 else 0)
  }

  function RunCount(log: seq<Event>, npid: string): nat {
    if log == [] then 0
    else RunCount(log[..|log| - 1], npid) + (if log[|log| - 1].Started? && log[|log| - 1].npid == npid then 1 else 0)
  }

  // ----- What each event may follow -----

  /**
   The discipline of the history: a run starts only when no run of its net is open, with exactly the
   conjunction of the flags; it ends what it started; a promise resolves only with nothing left to do.
   */
  ghost predicate Follows(log: seq<Event>, e: Event) {
    match e
    case Called(npid, permit, promise) => OwnedBy(log, promise, npid)
    case Started(npid, promise, permit) =>
      && OwnedBy(log, promise, npid) && OpenRun(log, npid).None?
      && Waiting(log, promise) && (permit <==> AllPermit(log, promise))
    case Finished(npid, promise) => OwnedBy(log, promise, npid) && OpenRun(log, npid) == Some(promise)
    case Failed(npid, promise) => OwnedBy(log, promise, npid) && OpenRun(log, npid) == Some(promise)
    case Settled(promise, ok) =>
      && (ok <==> !HasFailed(log, promise))
      && (ok ==> !Waiting(log, promise))
      && forall npid :: OpenRun(log, npid) != Some(promise)
  }

  ghost predicate Disciplined(log: seq<Event>) {
    forall k :: 0 <= k < |log| ==> Follows(log[..k], log[k])
  }

  /** What links the machine's fields to its history. */
  ghost predicate EntryFits(m: Machine, npid: string)
    requires npid in m.states
  {
    var e := m.states[npid];
    && e.promise < m.promises && e.promise !in m.settling
    && OwnedBy(m.log, e.promise, npid)
    && OpenRun(m.log, npid) == (if e.running then Some(e.promise) else None)
    && (e.nextPermit <==> AllPermit(m.log, e.promise))
    && (Waiting(m.log, e.promise) <==> !e.running || e.rerunRequested)
    && !HasFailed(m.log, e.promise)
  }

  ghost predicate SettlingFits(m: Machine, promise: nat)
    requires promise in m.settling
  {
    && promise < m.promises
    && (m.settling[promise] <==> !HasFailed(m.log, promise))
    && (m.settling[promise] ==> !Waiting(m.log, promise))
    && forall npid :: OpenRun(m.log, npid) != Some(promise)
  }

  ghost predicate Owed(m: Machine, promise: nat) {
    Waiting(m.log, promise) ==>
      || HasFailed(m.log, promise)
      || exists npid :: npid in m.states && m.states[npid].promise == promise
  }

  ghost predicate Budget(m: Machine, npid: string) {
    RunCount(m.log, npid)
    + (if npid in m.states && (!m.states[npid].running || m.states[npid].rerunRequested) then 1 else 0)
    <= CallCount(m.log, npid)
  }

  ghost predicate Inv(m: Machine) {
    && Disciplined(m.log)
    && (forall i :: 0 <= i < |m.log| ==> m.log[i].promise < m.promises)
    && (forall npid :: npid in m.states ==> EntryFits(m, npid))
    && (forall a, b :: a in m.states && b in m.states && m.states[a].promise == m.states[b].promise ==> a == b)
    && (forall npid :: npid !in m.states ==> OpenRun(m.log, npid).None?)
    && (forall promise :: promise in m.settling ==> SettlingFits(m, promise))
    && (forall promise :: Owed(m, promise))
    && (forall npid :: Budget(m, npid))
  }

  // ----- One more event -----

  lemma AppendFacts(log: seq<Event>, e: Event)
    ensures (log + [e])[..|log|] == log
    ensures forall npid :: OpenRun(log + [e], npid) ==
              if e.Started? && e.npid == npid then Some(e.promise)
              else if (e.Finished? || e.Failed?) && e.npid == npid then None
              else OpenRun(log, npid)
    ensures forall npid ::
              CallCount(log + [e], npid) == CallCount(log, npid) + if e.Called? && e.npid == npid then 1 else 0
    ensures forall npid ::
              RunCount(log + [e], npid) == RunCount(log, npid) + if e.Started? && e.npid == npid then 1 else 0
    ensures forall p :: LastStart(log + [e], p) == if e.Started? && e.promise == p then |log| else LastStart(log, p)
  {
    assert (log + [e])[..|log|] == log;
  }

  lemma AppendWaiting(log: seq<Event>, e: Event, p: nat)
    ensures Waiting(log + [e], p) <==>
              if e.Started? && e.promise == p then false
              else Waiting(log, p) || (e.Called? && e.promise == p)
    ensures AllPermit(log + [e], p) <==>
              if e.Started? && e.promise == p then true
              else AllPermit(log, p) && (e.Called? && e.promise == p ==> e.permit)
    ensures HasFailed(log + [e], p) <==> HasFailed(log, p) || (e.Failed? && e.promise == p)
    ensures forall npid :: OwnedBy(log + [e], p, npid) <==>
              OwnedBy(log, p, npid) && (!e.Settled? && e.promise == p ==> e.npid == npid)
  {
    AppendFacts(log, e);
    var after := log + [e];
    assert after[|log|] == e;
    assert forall i :: 0 <= i < |log| ==> after[i] == log[i];
    if Waiting(log, p) && !(e.Started? && e.promise == p) {
      var i :| LastStart(log, p) < i < |log| && log[i].Called? && log[i].promise == p;
      assert after[i].Called?;
    }
    if e.Called? && e.promise == p {
      assert after[|log|].Called? && LastStart(after, p) < |log|;
    }
    if HasFailed(log, p) {
      var i :| 0 <= i < |log| && log[i].Failed? && log[i].promise == p;
      assert after[i].Failed?;
    }
    if e.Failed? && e.promise == p {
      assert after[|log|].Failed?;
    }
    forall npid ensures OwnedBy(after, p, npid) <==>
                          OwnedBy(log, p, npid) && (!e.Settled? && e.promise == p ==> e.npid == npid)
    {
      if OwnedBy(after, p, npid) {
        assert forall i :: 0 <= i < |log| ==> after[i] == log[i];
        assert !after[|log|].Settled? && after[|log|].promise == p ==> after[|log|].npid == npid;
      }
    }
  }

  lemma AppendDisciplined(log: seq<Event>, e: Event)
    requires Disciplined(log) && Follows(log, e)
    ensures Disciplined(log + [e])
  {
    var after := log + [e];
    forall k | 0 <= k < |after| ensures Follows(after[..k], after[k]) {
      assert after[..k] == log[..k] || k == |log|;
      assert log[..|log|] == log && after[..|log|] == log;
    }
  }

  // ----- Every step keeps the invariant -----

  lemma Append(m: Machine, e: Event)
    requires Disciplined(m.log) && Follows(m.log, e)
    ensures Disciplined(m.log + [e])
    ensures forall npid :: OpenRun(m.log + [e], npid) ==
              if e.Started? && e.npid == npid then Some(e.promise)
              else if (e.Finished? || e.Failed?) && e.npid == npid then None
              else OpenRun(m.log, npid)
    ensures forall npid :: CallCount(m.log + [e], npid)
              == CallCount(m.log, npid) + if e.Called? && e.npid == npid then 1 else 0
    ensures forall npid :: RunCount(m.log + [e], npid)
              == RunCount(m.log, npid) + if e.Started? && e.npid == npid then 1 else 0
    ensures forall p :: Waiting(m.log + [e], p) <==>
              if e.Started? && e.promise == p then false
              else Waiting(m.log, p) || (e.Called? && e.promise == p)
    ensures forall p :: AllPermit(m.log + [e], p) <==>
              if e.Started? && e.promise == p then true
              else AllPermit(m.log, p) && (e.Called? && e.promise == p ==> e.permit)
    ensures forall p :: HasFailed(m.log + [e], p) <==> HasFailed(m.log, p) || (e.Failed? && e.promise == p)
    ensures forall p, npid :: OwnedBy(m.log + [e], p, npid) <==>
              OwnedBy(m.log, p, npid) && (!e.Settled? && e.promise == p ==> e.npid == npid)
  {
    hide Waiting, AllPermit, HasFailed, OwnedBy, OpenRun, CallCount, RunCount, Disciplined, Follows, LastStart;
    AppendFacts(m.log, e);
    AppendDisciplined(m.log, e);
    forall p
      ensures Waiting(m.log + [e], p) <==>
                if e.Started? && e.promise == p then false
                else Waiting(m.log, p) || (e.Called? && e.promise == p)
      ensures AllPermit(m.log + [e], p) <==>
                if e.Started? && e.promise == p then true
                else AllPermit(m.log, p) && (e.Called? && e.promise == p ==> e.permit)
      ensures HasFailed(m.log + [e], p) <==> HasFailed(m.log, p) || (e.Failed? && e.promise == p)
    {
      AppendWaiting(m.log, e, p);
    }
    forall p, npid
      ensures OwnedBy(m.log + [e], p, npid) <==>
                OwnedBy(m.log, p, npid) && (!e.Settled? && e.promise == p ==> e.npid == npid)
    {
      AppendWaiting(m.log, e, p);
    }
  }

  /** A step that appends one event and touches nothing but one net's entry and one promise. */
  ghost predicate LocalChange(m: Machine, after: Machine, npid: string, e: Event) {
    && after.log == m.log + [e] && m.promises <= after.promises && e.promise < after.promises
    && (!e.Settled? ==> e.npid == npid)
    && (forall n :: n != npid ==> (n in after.states <==> n in m.states))
    && (forall n :: n != npid && n in m.states ==> after.states[n] == m.states[n] && m.states[n].promise != e.promise)
    && (npid in after.states ==>
          forall n :: n != npid && n in m.states ==> m.states[n].promise != after.states[npid].promise)
    && (npid in m.states ==> m.states[npid].promise == e.promise)
    && (forall p :: p in after.settling && p != e.promise ==> p in m.settling && after.settling[p] == m.settling[p])
  }

  lemma LocalEntries(m: Machine, after: Machine, npid: string, e: Event)
    requires Inv(m) && Follows(m.log, e) && LocalChange(m, after, npid, e)
    ensures forall n :: n != npid && n in after.states ==> EntryFits(after, n)
    ensures forall n :: n != npid && n !in after.states ==> OpenRun(after.log, n).None?
    ensures forall p :: p in after.settling && p != e.promise ==> SettlingFits(after, p)
  {
    hide Waiting, AllPermit, HasFailed, OwnedBy, OpenRun, CallCount, RunCount, Disciplined, Follows;
    Append(m, e);
    forall n | n != npid && n in after.states ensures EntryFits(after, n) {
      assert EntryFits(m, n);
    }
    forall p | p in after.settling && p != e.promise ensures SettlingFits(after, p) {
      assert SettlingFits(m, p);
    }
  }

  lemma LocalDebts(m: Machine, after: Machine, npid: string, e: Event)
    requires Inv(m) && Follows(m.log, e) && LocalChange(m, after, npid, e)
    ensures forall p :: p != e.promise ==> Owed(after, p)
    ensures forall n :: n != npid ==> Budget(after, n)
  {
    hide Waiting, AllPermit, HasFailed, OwnedBy, OpenRun, CallCount, RunCount, Disciplined, Follows, EntryFits;
    Append(m, e);
    forall p | p != e.promise ensures Owed(after, p) {
      assert Owed(m, p);
      if n :| n in m.states && m.states[n].promise == p {
        assert n in after.states && after.states[n].promise == p;
      }
    }
    forall n | n != npid ensures Budget(after, n) {
      assert Budget(m, n);
    }
  }

  /**
   One event about one net keeps the invariant, if it does so for that net's entry and that event's
   promise: entries and promises of other nets are not concerned.
   */
  lemma LocalStep(m: Machine, after: Machine, npid: string, e: Event)
    requires Inv(m) && Follows(m.log, e) && LocalChange(m, after, npid, e)
    requires npid in after.states ==> EntryFits(after, npid)
    requires npid !in after.states ==> OpenRun(after.log, npid).None?
    requires e.promise in after.settling ==> SettlingFits(after, e.promise)
    requires Owed(after, e.promise) && Budget(after, npid)
    ensures Inv(after)
  {
    hide Owed, Budget, EntryFits, SettlingFits, OpenRun, Disciplined, Follows;
    AppendDisciplined(m.log, e);
    LocalEntries(m, after, npid, e);
    LocalDebts(m, after, npid, e);
  }

  lemma CallKeepsInv(m: Machine, npid: string, permit: bool)
    requires Inv(m)
    ensures Inv(OnCall(m, npid, permit))
  {
    hide Waiting, AllPermit, HasFailed, OwnedBy, OpenRun, CallCount, RunCount, Disciplined;
    FreshPromise(m);
    var p := if npid in m.states then m.states[npid].promise else m.promises;
    assert npid in m.states ==> EntryFits(m, npid);
    assert Budget(m, npid);
    Append(m, Called(npid, permit, p));
    LocalStep(m, OnCall(m, npid, permit), npid, Called(npid, permit, p));
  }

  /** A promise that has not been created yet appears nowhere. */
  lemma FreshPromise(m: Machine)
    requires Inv(m)
    ensures forall npid :: OwnedBy(m.log, m.promises, npid) && OpenRun(m.log, npid) != Some(m.promises)
    ensures !Waiting(m.log, m.promises) && AllPermit(m.log, m.promises) && !HasFailed(m.log, m.promises)
    ensures m.promises !in m.settling
    ensures forall npid :: npid in m.states ==> m.states[npid].promise != m.promises
  {
    forall npid | npid in m.states ensures m.states[npid].promise < m.promises {
      assert EntryFits(m, npid);
    }
    forall npid ensures OpenRun(m.log, npid) != Some(m.promises) {
      assert npid in m.states ==> EntryFits(m, npid);
    }
    assert forall p :: p in m.settling ==> SettlingFits(m, p);
  }

  lemma StartKeepsInv(m: Machine, npid: string)
    requires Inv(m) && Waits(m, npid)
    ensures Inv(StartRun(m, npid))
  {
    hide Waiting, AllPermit, HasFailed, OwnedBy, OpenRun, CallCount, RunCount, Disciplined;
    var e := m.states[npid];
    assert EntryFits(m, npid) && Budget(m, npid);
    Append(m, Started(npid, e.promise, e.nextPermit));
    LocalStep(m, StartRun(m, npid), npid, Started(npid, e.promise, e.nextPermit));
  }

  /** A run has ended and another one is requested: the entry is waiting for its next run again. */
  function Rewait(m: Machine, npid: string): Machine
    requires npid in m.states
  {
    m.(states := m.states[npid := m.states[npid].(running := false)],
       log := m.log + [Finished(npid, m.states[npid].promise)])
  }

  lemma RewaitKeepsInv(m: Machine, npid: string)
    requires Inv(m) && Runs(m, npid) && m.states[npid].rerunRequested
    ensures Inv(Rewait(m, npid))
  {
    hide Waiting, AllPermit, HasFailed, OwnedBy, OpenRun, CallCount, RunCount, Disciplined;
    assert EntryFits(m, npid) && Budget(m, npid);
    Append(m, Finished(npid, m.states[npid].promise));
    assert Rewait(m, npid).states[npid].promise == m.states[npid].promise;
    LocalStep(m, Rewait(m, npid), npid, Finished(npid, m.states[npid].promise));
  }

  lemma CloseKeepsInv(m: Machine, npid: string, ok: bool)
    requires Inv(m) && Runs(m, npid)
    requires ok ==> !m.states[npid].rerunRequested
    ensures var p := m.states[npid].promise;
            Inv(Close(m.(log := m.log + [if ok then Finished(npid, p) else Failed(npid, p)]), npid, ok))
  {
    hide Waiting, AllPermit, HasFailed, OwnedBy, OpenRun, CallCount, RunCount, Disciplined;
    var p := m.states[npid].promise;
    var e := if ok then Finished(npid, p) else Failed(npid, p);
    assert EntryFits(m, npid) && Budget(m, npid);
    Append(m, e);
    forall n ensures OpenRun(m.log, n) == Some(p) ==> n == npid {
      assert n in m.states ==> EntryFits(m, n);
    }
    LocalStep(m, Close(m.(log := m.log + [e]), npid, ok), npid, e);
  }

  lemma SettleKeepsInv(m: Machine, promise: nat)
    requires Inv(m) && promise in m.settling
    ensures Inv(m.(settling := m.settling - {promise}, log := m.log + [Settled(promise, m.settling[promise])]))
  {
    hide Waiting, AllPermit, HasFailed, OwnedBy, OpenRun, CallCount, RunCount, Disciplined;
    assert SettlingFits(m, promise);
    var e := Settled(promise, m.settling[promise]);
    var after := m.(settling := m.settling - {promise}, log := m.log + [e]);
    Append(m, e);
    forall n | n in m.states ensures EntryFits(after, n) && m.states[n].promise != promise {
      assert EntryFits(m, n);
    }
    forall p | p in after.settling ensures SettlingFits(after, p) {
      assert SettlingFits(m, p);
    }
    forall p ensures Owed(after, p) {
      assert Owed(m, p);
    }
    forall n ensures Budget(after, n) {
      assert Budget(m, n);
    }
  }

  lemma NextKeepsInv(m: Machine, a: Action)
    requires Inv(m)
    ensures Inv(Next(m, a))
  {
    hide Inv, OnCall;
    match a
    case Call(npid, permit) => CallKeepsInv(m, npid, permit);
    case Begin(npid) =>
      if Waits(m, npid) {
        StartKeepsInv(m, npid);
      }
    case Complete(npid) =>
      if Runs(m, npid) {
        if m.states[npid].rerunRequested {
          RewaitKeepsInv(m, npid);
          StartKeepsInv(Rewait(m, npid), npid);
          assert StartRun(Rewait(m, npid), npid) == Next(m, a);
        } else {
          CloseKeepsInv(m, npid, true);
        }
      }
    case Reject(npid) =>
      if Runs(m, npid) {
        CloseKeepsInv(m, npid, false);
      }
    case Settle(promise) =>
      if promise in m.settling {
        SettleKeepsInv(m, promise);
      }
  }

  lemma {:induction false} RunKeepsInv(actions: seq<Action>)
    ensures Inv(Run(actions))
  {
    if actions == [] {
    } else {
      RunKeepsInv(actions[..|actions| - 1]);
      NextKeepsInv(Run(actions[..|actions| - 1]), actions[|actions| - 1]);
    }
  }
}

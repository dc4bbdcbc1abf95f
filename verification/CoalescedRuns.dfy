/**
 CoalescedAsyncRequest as a state machine, one synchronous segment of JavaScript a step. Unlike a push,
 the drain's last loop test and the clearing of inFlight are two steps: a request can arrive between.
 */
module CoalescedRuns {
  import opened Wrappers

  datatype Event =
    | Requested(promise: nat)
    | Executed(promise: nat)
    | Completed(promise: nat)
    | Failed(promise: nat)
    | DrainEnded(promise: nat, ok: bool)
    | Settled(promise: nat, ok: bool)

  /** Where the drain behind inFlight stands; Finishing is the window before the finally callback. */
  datatype Phase = Idle | Queued | Running | Finishing(ok: bool)

  datatype Machine = Machine(phase: Phase, trailing: bool, requests: nat, executions: nat, coalesced: nat,
                             drains: nat, settling: map<nat, bool>, log: seq<Event>)

  datatype Action = Request | Begin | Complete | Reject | Release | Settle(promise: nat)

  const INITIAL := Machine(Idle, false, 0, 0, 0, 0, map[], [])

  /** The promise of the drain that is under way, or else of the next one. */
  function Current(m: Machine): nat {
    if m.phase.Idle? || m.drains == 0 then m.drains else m.drains - 1
  }

  function OnRequest(m: Machine): Machine {
    if m.phase.Idle? then
      m.(phase := Queued, requests := m.requests + 1, drains := m.drains + 1, log := m.log + [Requested(m.drains)])
    else
      m.(trailing := true, requests := m.requests + 1, coalesced := m.coalesced + 1,
         log := m.log + [Requested(Current(m))])
  }

  /** The top of the drain's loop. */
  function Execute(m: Machine): Machine {
    m.(phase := Running, trailing := false, executions := m.executions + 1, log := m.log + [Executed(Current(m))])
  }

  function Next(m: Machine, a: Action): Machine {
    match a
    case Request => OnRequest(m)
    case Begin => if m.phase.Queued? then Execute(m) else m
    case Complete =>
      if !m.phase.Running? then m
      else
        var done := m.(log := m.log + [Completed(Current(m))]);
        if m.trailing then Execute(done)
        else done.(phase := Finishing(true), log := done.log + [DrainEnded(Current(m), true)])
    case Reject =>
      if !m.phase.Running? then m
      else m.(phase := Finishing(false), log := m.log + [Failed(Current(m)), DrainEnded(Current(m), false)])
    case Release =>
      if !m.phase.Finishing? then m
      else m.(phase := Idle, settling := m.settling[Current(m) := m.phase.ok])
    case Settle(promise) =>
      if promise !in m.settling then m
      else m.(settling := m.settling - {promise}, log := m.log + [Settled(promise, m.settling[promise])])
  }

  function Run(actions: seq<Action>): Machine {
    if actions == [] then INITIAL else Next(Run(actions[..|actions| - 1]), actions[|actions| - 1])
  }

  // ----- Reading the history -----

  /** The execution that has begun and not ended. */
  ghost function OpenRun(log: seq<Event>): Option<nat> {
    if log == [] then None
    else
      var e := log[|log| - 1];
      if e.Executed? then Some(e.promise)
      else if e.Completed? || e.Failed? then None
      else OpenRun(log[..|log| - 1])
  }

  /** The index of the promise's last execution start, -1 if there is none. */
  ghost function LastStart(log: seq<Event>, promise: nat): (k: int)
    ensures -1 <= k < |log|
  {
    if log == [] then -1
    else if log[|log| - 1] == Executed(promise) then |log| - 1
    else LastStart(log[..|log| - 1], promise)
  }

  /** A request answered with this promise has arrived since its last execution began. */
  ghost predicate Waiting(log: seq<Event>, promise: nat) {
    exists i :: LastStart(log, promise) < i < |log| && log[i] == Requested(promise)
  }

  /** The promise's drain has made its last loop test, or has thrown. */
  ghost predicate Ended(log: seq<Event>, promise: nat, ok: bool) {
    exists i :: 0 <= i < |log| && log[i] == DrainEnded(promise, ok)
  }

  ghost predicate Mentioned(log: seq<Event>, promise: nat) {
    exists i :: 0 <= i < |log| && log[i].promise == promise
  }

  ghost predicate HasFailed(log: seq<Event>, promise: nat) {
    exists i :: 0 <= i < |log| && log[i] == Failed(promise)
  }

  ghost predicate HasEnded(log: seq<Event>, promise: nat) {
    Ended(log, promise, true) || Ended(log, promise, false)
  }

  function Requests(log: seq<Event>): nat {
    if log == [] then 0 else Requests(log[..|log| - 1]) + if log[|log| - 1].Requested? then 1 else 0
  }

  function Executions(log: seq<Event>): nat {
    if log == [] then 0 else Executions(log[..|log| - 1]) + if log[|log| - 1].Executed? then 1 else 0
  }

  // ----- What each event may follow -----

  ghost predicate Follows(log: seq<Event>, e: Event) {
    match e
    case Requested(p) => true
    case Executed(p) => OpenRun(log).None? && Waiting(log, p) && !Ended(log, p, true) && !Ended(log, p, false)
    case Completed(p) => OpenRun(log) == Some(p)
    case Failed(p) => OpenRun(log) == Some(p)
    case DrainEnded(p, ok) =>
      && OpenRun(log).None? && !Ended(log, p, true) && !Ended(log, p, false)
      && (ok ==> !Waiting(log, p)) && (ok <==> !HasFailed(log, p))
    case Settled(p, ok) => Ended(log, p, ok)
  }

  ghost predicate Disciplined(log: seq<Event>) {
    forall k :: 0 <= k < |log| ==> Follows(log[..k], log[k])
  }

  ghost predicate PhaseFits(m: Machine) {
    var p := Current(m);
    && (!m.phase.Idle? ==> m.drains > 0)
    && OpenRun(m.log) == (if m.phase.Running? then Some(p) else None)
    && (m.phase.Idle? ==> !Mentioned(m.log, p))
    && (m.phase.Queued? || m.phase.Running? ==>
          !Ended(m.log, p, true) && !Ended(m.log, p, false) && !HasFailed(m.log, p))
    && (m.phase.Queued? ==> Waiting(m.log, p))
    && (m.phase.Running? ==> (Waiting(m.log, p) <==> m.trailing))
    && (m.phase.Finishing? ==> Ended(m.log, p, m.phase.ok))
  }

  ghost predicate Counted(m: Machine) {
    && m.requests == Requests(m.log) && m.executions == Executions(m.log)
    && m.requests == m.coalesced + m.drains
    && m.executions + (if m.phase.Queued? || (m.phase.Running? && m.trailing) then 1 else 0) <= m.requests
  }

  /** Every event so far belongs to a drain that has begun. */
  ghost predicate Bounded(m: Machine) {
    forall i :: 0 <= i < |m.log| ==> m.log[i].promise < m.drains
  }

  ghost predicate SettlingEnded(m: Machine) {
    forall p :: p in m.settling ==> Ended(m.log, p, m.settling[p])
  }

  /** The drain has begun and has yet to make its last loop test. */
  predicate Live(m: Machine, promise: nat) {
    (m.phase.Queued? || m.phase.Running?) && promise + 1 == m.drains
  }

  /** Every drain that has begun is live or has ended. */
  ghost predicate OthersEnded(m: Machine) {
    forall p: nat :: p < m.drains && !Live(m, p) ==> HasEnded(m.log, p)
  }

  ghost predicate Inv(m: Machine) {
    && Disciplined(m.log) && PhaseFits(m) && Counted(m) && Bounded(m)
    && SettlingEnded(m) && OthersEnded(m)
  }

  // ----- One more event -----

  /** What one more event changes for one promise. */
  lemma AppendAt(log: seq<Event>, e: Event, p: nat)
    ensures OpenRun(log + [e]) ==
              if e.Executed? then Some(e.promise) else if e.Completed? || e.Failed? then None else OpenRun(log)
    ensures Requests(log + [e]) == Requests(log) + if e.Requested? then 1 else 0
    ensures Executions(log + [e]) == Executions(log) + if e.Executed? then 1 else 0
    ensures Waiting(log + [e], p) <==> if e == Executed(p) then false else Waiting(log, p) || e == Requested(p)
    ensures Ended(log + [e], p, true) <==> Ended(log, p, true) || e == DrainEnded(p, true)
    ensures Ended(log + [e], p, false) <==> Ended(log, p, false) || e == DrainEnded(p, false)
    ensures Mentioned(log + [e], p) <==> Mentioned(log, p) || e.promise == p
    ensures HasFailed(log + [e], p) <==> HasFailed(log, p) || e == Failed(p)
  {
    hide Waiting, Ended, Mentioned, HasFailed;
    assert (log + [e])[..|log|] == log;
    AppendWaiting(log, e, p);
    AppendEnded(log, e, p, true);
    AppendEnded(log, e, p, false);
    AppendMentioned(log, e, p);
    AppendFailed(log, e, p);
  }

  lemma AppendWaiting(log: seq<Event>, e: Event, p: nat)
    ensures Waiting(log + [e], p) <==>
              if e == Executed(p) then false else Waiting(log, p) || e == Requested(p)
  {
    var after := log + [e];
    assert after[..|log|] == log && after[|log|] == e;
    if e != Executed(p) && Waiting(log, p) {
      var i :| LastStart(log, p) < i < |log| && log[i] == Requested(p);
      assert after[i] == Requested(p);
    }
  }

  lemma AppendEnded(log: seq<Event>, e: Event, p: nat, ok: bool)
    ensures Ended(log + [e], p, ok) <==> Ended(log, p, ok) || e == DrainEnded(p, ok)
  {
    var after := log + [e];
    assert after[|log|] == e;
    if Ended(log, p, ok) {
      var i :| 0 <= i < |log| && log[i] == DrainEnded(p, ok);
      assert after[i] == DrainEnded(p, ok);
    }
  }

  lemma AppendMentioned(log: seq<Event>, e: Event, p: nat)
    ensures Mentioned(log + [e], p) <==> Mentioned(log, p) || e.promise == p
  {
    var after := log + [e];
    assert after[|log|] == e;
    if Mentioned(log, p) {
      var i :| 0 <= i < |log| && log[i].promise == p;
      assert after[i].promise == p;
    }
  }

  lemma AppendFailed(log: seq<Event>, e: Event, p: nat)
    ensures HasFailed(log + [e], p) <==> HasFailed(log, p) || e == Failed(p)
  {
    var after := log + [e];
    assert after[|log|] == e;
    if HasFailed(log, p) {
      var i :| 0 <= i < |log| && log[i] == Failed(p);
      assert after[i] == Failed(p);
    }
  }

  /** The parts of the invariant that speak of the whole history grow with it. */
  lemma HistoryGrows(m: Machine, after: Machine, e: Event)
    requires Disciplined(m.log) && Bounded(m) && SettlingEnded(m) && OthersEnded(m) && Follows(m.log, e)
    requires after.log == m.log + [e] && m.drains <= after.drains && e.promise < after.drains
    requires forall p :: p in after.settling ==> p in m.settling && after.settling[p] == m.settling[p]
    requires forall p: nat :: p < after.drains && !Live(after, p) ==>
               (p < m.drains && !Live(m, p)) || (e.DrainEnded? && e.promise == p)
    ensures Disciplined(after.log) && Bounded(after) && SettlingEnded(after) && OthersEnded(after)
  {
    hide Follows, Ended, Live;
    forall p: nat | p < after.drains && !Live(after, p) ensures HasEnded(after.log, p) {
      AppendEnded(m.log, e, p, true);
      AppendEnded(m.log, e, p, false);
    }
    forall k | 0 <= k < |after.log| ensures Follows(after.log[..k], after.log[k]) {
      assert after.log[..k] == m.log[..k];
      assert m.log[..|m.log|] == m.log;
    }
    forall p | p in after.settling ensures Ended(after.log, p, after.settling[p]) {
      AppendEnded(m.log, e, p, after.settling[p]);
    }
  }

  /** A promise that no event mentions has no history. */
  lemma Unmentioned(log: seq<Event>, p: nat)
    requires !Mentioned(log, p)
    ensures !Waiting(log, p) && !Ended(log, p, true) && !Ended(log, p, false) && !HasFailed(log, p)
  {
    assert forall i :: 0 <= i < |log| ==> log[i].promise != p;
  }

  /** No event belongs to a drain that has not begun. */
  lemma Unbegun(m: Machine, p: nat)
    requires Bounded(m) && m.drains <= p
    ensures !Mentioned(m.log, p)
  {
  }

  // ----- Every step keeps the invariant -----

  lemma RequestKeepsInv(m: Machine)
    requires Inv(m)
    ensures Inv(OnRequest(m))
  {
    hide Waiting, Ended, Mentioned, HasFailed, Disciplined, OpenRun, Requests, Executions, Bounded,
      SettlingEnded, OthersEnded;
    var p := Current(m);
    AppendAt(m.log, Requested(p), p);
    HistoryGrows(m, OnRequest(m), Requested(p));
    if m.phase.Idle? {
      Unmentioned(m.log, p);
    }
  }

  lemma ExecuteKeepsInv(m: Machine)
    requires Inv(m) && m.phase.Queued?
    ensures Inv(Execute(m))
  {
    hide Waiting, Ended, Mentioned, HasFailed, Disciplined, OpenRun, Requests, Executions, Bounded,
      SettlingEnded, OthersEnded;
    var p := Current(m);
    AppendAt(m.log, Executed(p), p);
    HistoryGrows(m, Execute(m), Executed(p));
  }

  /** An execution has completed and another one is wanted: the drain is about to execute again. */
  lemma RewaitKeepsInv(m: Machine)
    requires Inv(m) && m.phase.Running? && m.trailing
    ensures Inv(m.(phase := Queued, trailing := false, log := m.log + [Completed(Current(m))]))
  {
    hide Waiting, Ended, Mentioned, HasFailed, Disciplined, OpenRun, Requests, Executions, Bounded,
      SettlingEnded, OthersEnded;
    var p := Current(m);
    AppendAt(m.log, Completed(p), p);
    HistoryGrows(m, m.(phase := Queued, trailing := false, log := m.log + [Completed(p)]), Completed(p));
  }

  lemma EndKeepsInv(m: Machine, ok: bool)
    requires Inv(m) && m.phase.Running? && (ok ==> !m.trailing)
    ensures var p := Current(m);
            Inv(m.(phase := Finishing(ok),
                   log := m.log + [if ok then Completed(p) else Failed(p)] + [DrainEnded(p, ok)]))
  {
    hide Waiting, Ended, Mentioned, HasFailed, Disciplined, OpenRun, Requests, Executions, Bounded,
      SettlingEnded, OthersEnded;
    var p := Current(m);
    var e := if ok then Completed(p) else Failed(p);
    var done := m.(log := m.log + [e]);
    AppendAt(m.log, e, p);
    HistoryGrows(m, done, e);
    AppendAt(done.log, DrainEnded(p, ok), p);
    HistoryGrows(done, m.(phase := Finishing(ok), log := done.log + [DrainEnded(p, ok)]), DrainEnded(p, ok));
  }

  lemma ReleaseKeepsInv(m: Machine)
    requires Inv(m) && m.phase.Finishing?
    ensures Inv(Next(m, Release))
  {
    hide Waiting, Ended, Mentioned, HasFailed, Disciplined, OpenRun, Requests, Executions;
    Unbegun(m, m.drains);
  }

  lemma SettleKeepsInv(m: Machine, promise: nat)
    requires Inv(m) && promise in m.settling
    ensures Inv(Next(m, Settle(promise)))
  {
    hide Waiting, Mentioned, HasFailed, Disciplined, OpenRun, Requests, Executions;
    var e := Settled(promise, m.settling[promise]);
    var i :| 0 <= i < |m.log| && m.log[i] == DrainEnded(promise, m.settling[promise]);
    assert m.log[i].promise < m.drains;
    SettleFits(m, e);
    HistoryGrows(m, Next(m, Settle(promise)), e);
  }

  lemma SettleFits(m: Machine, e: Event)
    requires PhaseFits(m) && Counted(m) && e.Settled? && e.promise < m.drains
    ensures forall settling :: var after := m.(log := m.log + [e], settling := settling);
                               PhaseFits(after) && Counted(after)
  {
    hide Waiting, Ended, Mentioned, HasFailed, OpenRun, Requests, Executions;
    AppendAt(m.log, e, Current(m));
  }

  lemma NextKeepsInv(m: Machine, a: Action)
    requires Inv(m)
    ensures Inv(Next(m, a))
  {
    hide Inv, OnRequest;
    match a
    case Request => RequestKeepsInv(m);
    case Begin =>
      if m.phase.Queued? {
        ExecuteKeepsInv(m);
      }
    case Complete =>
      if m.phase.Running? && m.trailing {
        RewaitKeepsInv(m);
        ExecuteKeepsInv(m.(phase := Queued, trailing := false, log := m.log + [Completed(Current(m))]));
      } else if m.phase.Running? {
        EndKeepsInv(m, true);
      }
    case Reject =>
      if m.phase.Running? {
        EndKeepsInv(m, false);
        assert m.log + [Failed(Current(m)), DrainEnded(Current(m), false)]
            == m.log + [Failed(Current(m))] + [DrainEnded(Current(m), false)];
      }
    case Release =>
      if m.phase.Finishing? {
        ReleaseKeepsInv(m);
      }
    case Settle(promise) =>
      if promise in m.settling {
        SettleKeepsInv(m, promise);
      }
  }

  lemma {:induction false} RunKeepsInv(actions: seq<Action>)
    ensures Inv(Run(actions))
  {
    if actions == [] {
    } else {
      RunKeepsInv(actions[..|actions| - 1]);
      NextKeepsInv(Run(actions[..|actions| - 1]), actions[|actions| - 1]);
    }
  }

  // ----- The theorems -----

  /** Requests are either joined or begin a drain, and there are never more executions than requests. */
  lemma CountersAgree(actions: seq<Action>)
    ensures var m := Run(actions);
            && m.requests == m.coalesced + m.drains && m.executions <= m.requests
            && m.requests == Requests(m.log) && m.executions == Executions(m.log)
  {
    RunKeepsInv(actions);
  }

  /** An execution that has begun and is no longer open has ended in between. */
  lemma {:induction false} ExecutionCloses(log: seq<Event>, k: nat, j: nat) returns (l: nat)
    requires Disciplined(log) && k < j <= |log| && log[k].Executed?
    requires OpenRun(log[..j]) != Some(log[k].promise)
    ensures k < l < j && (log[l] == Completed(log[k].promise) || log[l] == Failed(log[k].promise))
    decreases j
  {
    var p := log[k].promise;
    assert log[..j][..j - 1] == log[..j - 1];
    assert log[..j][|log[..j]| - 1] == log[j - 1];
    assert Follows(log[..j - 1], log[j - 1]);
    if log[j - 1] == Completed(p) || log[j - 1] == Failed(p) {
      l := j - 1;
    } else {
      assert j - 1 != k;
      l := ExecutionCloses(log, k, j - 1);
    }
  }

  /** Two executions never overlap, whichever requests they serve. */
  lemma ExecutionsNeverOverlap(actions: seq<Action>, k: nat, j: nat)
    requires var log := Run(actions).log;
             k < j < |log| && log[k].Executed? && log[j].Executed?
    ensures var log := Run(actions).log;
            exists l :: k < l < j && (log[l] == Completed(log[k].promise) || log[l] == Failed(log[k].promise))
  {
    RunKeepsInv(actions);
    var log := Run(actions).log;
    assert Follows(log[..j], log[j]);
    var l := ExecutionCloses(log, k, j);
  }

  lemma {:induction false} LastStartIs(log: seq<Event>, p: nat)
    ensures LastStart(log, p) >= 0 ==> log[LastStart(log, p)] == Executed(p)
  {
    if log != [] {
      LastStartIs(log[..|log| - 1], p);
    }
  }

  /** The request at i arrived after its drain's last loop test, in the window before finally. */
  ghost predicate ArrivedInWindow(log: seq<Event>, i: nat)
    requires i < |log|
  {
    exists d, ok :: 0 <= d < i && log[d] == DrainEnded(log[i].promise, ok)
  }

  /**
   Exactly which requests are served: when the promise a request was given resolves, that promise's
   drain has executed after the request if and only if the request did not arrive in the window.
   */
  lemma ServedUnlessInWindow(actions: seq<Action>, i: nat, j: nat)
    requires var log := Run(actions).log;
             i < j < |log| && log[i].Requested? && log[j] == Settled(log[i].promise, true)
    ensures var log := Run(actions).log;
            ArrivedInWindow(log, i) <==> !exists k :: i < k < j && log[k] == Executed(log[i].promise)
    ensures var log := Run(actions).log;
            !ArrivedInWindow(log, i) ==>
              exists k, l :: i < k < l < j && log[k] == Executed(log[i].promise) && log[l] == Completed(log[i].promise)
  {
    hide Inv;
    RunKeepsInv(actions);
    var log := Run(actions).log;
    InvDiscipline(Run(actions));
    if ArrivedInWindow(log, i) {
      NothingAfterEnd(log, i);
    } else {
      var k, l := ServedBeforeEnd(log, i, j);
    }
  }

  /** Unless an execution has begun after the request, the request is waiting. */
  lemma UnservedIsWaiting(log: seq<Event>, i: nat)
    requires i < |log| && log[i].Requested?
    requires forall k :: i < k < |log| ==> log[k] != Executed(log[i].promise)
    ensures Waiting(log, log[i].promise)
  {
    LastStartIs(log, log[i].promise);
    assert LastStart(log, log[i].promise) < i;
  }

  /**
   No request outside the window is lost, in any reachable state: one that no execution has begun after
   belongs to a drain that has thrown, or to the live drain, whose next step then begins an execution.
   */
  lemma UnservedRequestIsOwed(actions: seq<Action>, i: nat)
    requires i < |Run(actions).log| && Run(actions).log[i].Requested?
    requires !ArrivedInWindow(Run(actions).log, i)
    requires forall k :: i < k < |Run(actions).log| ==> Run(actions).log[k] != Executed(Run(actions).log[i].promise)
    ensures var m := Run(actions);
            var p := m.log[i].promise;
            || (Ended(m.log, p, false) && HasFailed(m.log, p))
            || (&& Current(m) == p
                && ((m.phase.Queued? && Next(m, Begin).log == m.log + [Executed(p)])
                    || (m.phase.Running? && m.trailing
                        && Next(m, Complete).log == m.log + [Completed(p)] + [Executed(p)])))
  {
    hide Waiting, Ended, HasFailed, Disciplined, Follows, OpenRun, Run, Requests, Executions;
    RunKeepsInv(actions);
    var m := Run(actions);
    var p := m.log[i].promise;
    UnservedIsWaiting(m.log, i);
    if !Live(m, p) {
      EndedUnservedFailed(m.log, i);
    }
  }

  /** A drain that ended without executing for an earlier request of its own has thrown. */
  lemma EndedUnservedFailed(log: seq<Event>, i: nat)
    requires Disciplined(log) && i < |log| && log[i].Requested? && !ArrivedInWindow(log, i)
    requires forall k :: i < k < |log| ==> log[k] != Executed(log[i].promise)
    requires HasEnded(log, log[i].promise)
    ensures Ended(log, log[i].promise, false) && HasFailed(log, log[i].promise)
  {
    hide Waiting, OpenRun;
    var p := log[i].promise;
    var ok := Ended(log, p, true);
    var d :| 0 <= d < |log| && log[d] == DrainEnded(p, ok);
    assert i < d;
    assert log[..d][i] == log[i];
    UnservedIsWaiting(log[..d], i);
    assert Follows(log[..d], log[d]);
    EarlierFailure(log, d, p);
  }

  lemma EarlierFailure(log: seq<Event>, d: nat, p: nat)
    requires d <= |log|
    ensures HasFailed(log[..d], p) <==> exists l :: 0 <= l < d && log[l] == Failed(p)
  {
    assert forall l :: 0 <= l < d ==> log[..d][l] == log[l];
  }

  /** An open run has begun, and everything after its start left it open. */
  lemma {:induction false} OpenRunBegan(log: seq<Event>, p: nat) returns (k: nat)
    requires OpenRun(log) == Some(p)
    ensures k < |log| && log[k] == Executed(p)
    ensures forall j :: k < j <= |log| ==> OpenRun(log[..j]) == Some(p)
  {
    assert log[..|log|] == log;
    if log[|log| - 1].Executed? {
      k := |log| - 1;
    } else {
      var init := log[..|log| - 1];
      k := OpenRunBegan(init, p);
      assert forall j :: 0 <= j <= |init| ==> init[..j] == log[..j];
    }
  }

  /** A promise rejects exactly when one of its executions failed. */
  lemma RejectedMeansFailed(actions: seq<Action>, j: nat)
    requires j < |Run(actions).log| && Run(actions).log[j].Settled?
    ensures var log := Run(actions).log;
            !log[j].ok <==> exists l :: 0 <= l < j && log[l] == Failed(log[j].promise)
  {
    hide Inv;
    RunKeepsInv(actions);
    var log := Run(actions).log;
    InvDiscipline(Run(actions));
    var p := log[j].promise;
    assert Follows(log[..j], log[j]);
    var d :| 0 <= d < j && log[..j][d] == DrainEnded(p, log[j].ok);
    assert Follows(log[..d], log[d]);
    EarlierFailure(log, d, p);
    forall l | 0 <= l < j && log[l] == Failed(p) ensures l < d {
      FailsBeforeEnd(log, l, d, p);
    }
  }

  /** A promise's executions begin before its drain ends. */
  lemma StartBeforeEnd(log: seq<Event>, k: nat, d: nat, p: nat)
    requires Disciplined(log) && k < |log| && d < |log|
    requires log[k] == Executed(p) && log[d].DrainEnded? && log[d].promise == p
    ensures k < d
  {
    assert Follows(log[..k], log[k]);
    assert !Ended(log[..k], p, log[d].ok);
    assert forall i :: 0 <= i < k ==> log[..k][i] == log[i];
  }

  lemma NothingOpenAtEnd(log: seq<Event>, d: nat)
    requires Disciplined(log) && d < |log| && log[d].DrainEnded?
    ensures OpenRun(log[..d]).None?
  {
    assert Follows(log[..d], log[d]);
  }

  lemma OpenBeforeFailure(log: seq<Event>, l: nat, p: nat)
    requires Disciplined(log) && l < |log| && log[l] == Failed(p)
    ensures OpenRun(log[..l]) == Some(p)
  {
    assert Follows(log[..l], log[l]);
  }

  /** A promise's executions fail before its drain ends. */
  lemma FailsBeforeEnd(log: seq<Event>, l: nat, d: nat, p: nat)
    requires Disciplined(log) && l < |log| && d < |log|
    requires log[l] == Failed(p) && log[d].DrainEnded? && log[d].promise == p
    ensures l < d
  {
    hide Disciplined, OpenRun;
    OpenBeforeFailure(log, l, p);
    var k := OpenRunBegan(log[..l], p);
    StartBeforeEnd(log, k, d, p);
    if d < l {
      assert log[..l][..d] == log[..d];
      NothingOpenAtEnd(log, d);
    }
  }

  lemma InvDiscipline(m: Machine)
    requires Inv(m)
    ensures Disciplined(m.log)
  {
  }

  /** Once its drain has ended, a promise executes no more. */
  lemma NothingAfterEnd(log: seq<Event>, i: nat)
    requires Disciplined(log) && i < |log| && ArrivedInWindow(log, i)
    ensures forall k :: i < k < |log| ==> log[k] != Executed(log[i].promise)
  {
    var p := log[i].promise;
    var d, ok :| 0 <= d < i && log[d] == DrainEnded(p, ok);
    forall k | i < k < |log| ensures log[k] != Executed(p) {
      assert Follows(log[..k], log[k]);
      assert log[..k][d] == DrainEnded(p, ok);
      assert Ended(log[..k], p, ok);
    }
  }

  /** A request that came before its drain's successful end was executed for, start to finish. */
  lemma ServedBeforeEnd(log: seq<Event>, i: nat, j: nat) returns (k: nat, l: nat)
    requires Disciplined(log) && i < j < |log| && log[i].Requested? && log[j] == Settled(log[i].promise, true)
    requires !ArrivedInWindow(log, i)
    ensures i < k < l < j && log[k] == Executed(log[i].promise) && log[l] == Completed(log[i].promise)
  {
    var p := log[i].promise;
    assert Follows(log[..j], log[j]);
    var d :| 0 <= d < j && log[..j][d] == DrainEnded(p, true);
    assert log[d] == DrainEnded(p, true);
    assert i < d;
    assert Follows(log[..d], log[d]);
    k := StartAfter(log[..d], p, i);
    l := ExecutionCloses(log, k, d);
    assert log[..d][l] == log[l];
  }

  /** Unless a request is still waiting, an execution has begun after it. */
  lemma StartAfter(log: seq<Event>, p: nat, i: nat) returns (k: nat)
    requires i < |log| && log[i] == Requested(p) && !Waiting(log, p)
    ensures i < k < |log| && log[k] == Executed(p)
  {
    LastStartIs(log, p);
    k := LastStart(log, p);
  }

  /** The window is real: this run resolves a request that nothing executed after. */
  lemma WindowLosesARequest()
    ensures var m := Run([Request, Begin, Complete, Request, Release, Settle(0)]);
            && m.log == [Requested(0), Executed(0), Completed(0), DrainEnded(0, true), Requested(0), Settled(0, true)]
            && m.phase.Idle? && m.requests == 2 && m.executions == 1 && m.coalesced == 1
  {
    var a := [Request, Begin, Complete, Request, Release, Settle(0)];
    assert a[..5][..4] == a[..4] && a[..4][..3] == a[..3] && a[..3][..2] == a[..2] && a[..2][..1] == a[..1];
    assert a[..1] == [Request] && a[..1][..0] == [];
    var m1 := Run(a[..1]);
    assert Run(a[..1][..0]) == INITIAL;
    assert m1 == OnRequest(INITIAL);
    var m2 := Run(a[..2]);
    assert m2 == Execute(m1);
    var m3 := Run(a[..3]);
    assert m3.log == [Requested(0), Executed(0), Completed(0), DrainEnded(0, true)];
    var m4 := Run(a[..4]);
    assert m4 == OnRequest(m3);
    var m5 := Run(a[..5]);
    assert a[..5][4] == Release;
    assert m5 == Next(m4, Release);
    assert Run(a) == Next(m5, Settle(0));
  }
}

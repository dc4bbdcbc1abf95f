/** What RealtimeClients.push guarantees over every interleaving of calls, runs and settlements. */
module PushFacts {
  import opened Wrappers
  import opened PushRuns

  // ----- The history, index by index -----

  ghost predicate StartOf(e: Event, promise: nat) {
    e.Started? && e.promise == promise
  }

  ghost predicate CallOf(e: Event, promise: nat) {
    e.Called? && e.promise == promise
  }

  lemma {:induction false} LastStartIs(log: seq<Event>, p: nat)
    ensures var k := LastStart(log, p);
            && (k >= 0 ==> StartOf(log[k], p))
            && forall s :: k < s < |log| ==> !StartOf(log[s], p)
  {
    if log != [] {
      var init := log[..|log| - 1];
      LastStartIs(init, p);
      assert forall s :: 0 <= s < |init| ==> init[s] == log[s];
    }
  }

  /** The first run start of the promise between two points, when there is one. */
  lemma {:induction false} FirstStart(log: seq<Event>, p: nat, lo: nat, hi: nat) returns (k: nat)
    requires exists s :: lo <= s < hi <= |log| && StartOf(log[s], p)
    ensures lo <= k < hi <= |log| && StartOf(log[k], p)
    ensures (forall s :: lo <= s < k ==> !StartOf(log[s], p))
    decreases hi - lo
  {
    if StartOf(log[lo], p) {
      k := lo;
    } else {
      k := FirstStart(log, p, lo + 1, hi);
    }
  }

  /** How one event bears on the open run of a net. */
  lemma OpenRunAt(log: seq<Event>, j: nat, npid: string)
    requires j < |log|
    ensures var e := log[j];
            OpenRun(log[..j + 1], npid) ==
              if e.Started? && e.npid == npid then Some(e.promise)
              else if (e.Finished? || e.Failed?) && e.npid == npid then None
              else OpenRun(log[..j], npid)
  {
    assert log[..j + 1][..j] == log[..j];
  }

  /** In a disciplined history a run starts when none is open, and the open run is the one that ends. */
  lemma OpenRunBefore(log: seq<Event>, j: nat)
    requires Disciplined(log) && j < |log|
    ensures log[j].Started? ==> OpenRun(log[..j], log[j].npid).None?
    ensures log[j].Finished? || log[j].Failed? ==> OpenRun(log[..j], log[j].npid) == Some(log[j].promise)
  {
    hide OwnedBy, Waiting, AllPermit, HasFailed, OpenRun;
    assert Follows(log[..j], log[j]);
  }

  /** A run that has started and is no longer open has ended in between. */
  lemma {:induction false} RunCloses(log: seq<Event>, k: nat, j: nat, npid: string, p: nat) returns (l: nat)
    requires Disciplined(log) && k < j <= |log|
    requires log[k].Started? && log[k].npid == npid && log[k].promise == p
    requires OpenRun(log[..j], npid) != Some(p)
    ensures k < l < j && (log[l] == Finished(npid, p) || log[l] == Failed(npid, p))
    ensures OpenRun(log[..l], npid) == Some(p)
    decreases j
  {
    hide Disciplined, OpenRun;
    OpenRunAt(log, j - 1, npid);
    OpenRunBefore(log, j - 1);
    if log[j - 1] == Finished(npid, p) || log[j - 1] == Failed(npid, p) {
      l := j - 1;
    } else {
      l := RunCloses(log, k, j - 1, npid, p);
    }
  }

  // ----- The theorems -----

  /** Mutual exclusion: between two runs of the same net the first one has ended. */
  lemma RunsNeverOverlap(actions: seq<Action>, k: nat, j: nat)
    requires var log := Run(actions).log;
             k < j < |log| && log[k].Started? && log[j].Started? && log[k].npid == log[j].npid
    ensures var log := Run(actions).log;
            exists l :: && k < l < j
                        && (log[l] == Finished(log[k].npid, log[k].promise)
                            || log[l] == Failed(log[k].npid, log[k].promise))
  {
    RunKeepsInv(actions);
    var log := Run(actions).log;
    assert Follows(log[..j], log[j]);
    var l := RunCloses(log, k, j, log[k].npid, log[k].promise);
  }

  /**
   The flag a run is given is exactly the conjunction of the flags of the calls accepted since the
   promise's previous run began (since its state was created, for the first run).
   */
  lemma FlagIsConjunction(actions: seq<Action>, k: nat)
    requires k < |Run(actions).log| && Run(actions).log[k].Started?
    ensures var log := Run(actions).log;
            var p := log[k].promise;
            log[k].permit <==>
              forall i :: 0 <= i < k && CallOf(log[i], p) && (forall s :: i < s < k ==> !StartOf(log[s], p))
                          ==> log[i].permit
  {
    hide Inv;
    RunKeepsInv(actions);
    var log := Run(actions).log;
    var p := log[k].promise;
    InvDiscipline(Run(actions));
    assert Follows(log[..k], log[k]);
    LastStartIs(log[..k], p);
    var last := LastStart(log[..k], p);
    forall i | 0 <= i < k && CallOf(log[i], p)
      ensures (forall s :: i < s < k ==> !StartOf(log[s], p)) <==> last < i
    {
      assert log[..k][i] == log[i];
      if last < i {
        assert forall s :: i < s < k ==> log[..k][s] == log[s];
      } else {
        assert log[..k][last] == log[last];
        assert last != i;
      }
    }
    assert forall i :: 0 <= i < k ==> log[..k][i] == log[i];
  }

  lemma InvDiscipline(m: Machine)
    requires Inv(m)
    ensures Disciplined(m.log)
  {
  }

  /** Everything before a start and after the previous one is what that start has to serve. */
  lemma NoStartBetween(log: seq<Event>, p: nat, i: nat, k: nat)
    requires i < k <= |log| && !StartOf(log[i], p)
    requires forall s :: i < s < k ==> !StartOf(log[s], p)
    ensures LastStart(log[..k], p) < i
  {
    LastStartIs(log[..k], p);
    var last := LastStart(log[..k], p);
    assert last >= 0 ==> log[..k][last] == log[last];
  }

  /**
   No request is lost: when the promise a call was given resolves, a run for that net began after the
   call and finished before the resolution, and if the call demanded fresh data that run was uncached.
   */
  lemma ResolvedMeansServed(actions: seq<Action>, i: nat, j: nat) returns (k: nat, l: nat)
    requires var log := Run(actions).log;
             && i < j < |log| && log[i].Called? && log[j] == Settled(log[i].promise, true)
    ensures var log := Run(actions).log;
            && i < k < l < j
            && log[k].Started? && log[k].npid == log[i].npid && log[k].promise == log[i].promise
            && log[l] == Finished(log[i].npid, log[i].promise)
            && (forall s :: i < s < k ==> !StartOf(log[s], log[i].promise))
            && (!log[i].permit ==> !log[k].permit)
  {
    hide Inv, Run, Disciplined, OpenRun, AllPermit;
    RunKeepsInv(actions);
    InvDiscipline(Run(actions));
    k, l := ServedBeforeSettled(Run(actions).log, i, j);
  }

  /** A call whose promise has settled well was followed by a run start. */
  lemma StartBeforeSettled(log: seq<Event>, i: nat, j: nat)
    requires Disciplined(log) && i < j < |log| && log[i].Called? && log[j] == Settled(log[i].promise, true)
    ensures exists s :: i + 1 <= s < j <= |log| && StartOf(log[s], log[i].promise)
  {
    hide OpenRun, AllPermit, OwnedBy, HasFailed;
    var p := log[i].promise;
    assert Follows(log[..j], log[j]);
    LastStartIs(log[..j], p);
    var last := LastStart(log[..j], p);
    assert log[..j][i] == log[i];
    assert last >= i;
    assert log[..j][last] == log[last];
    assert StartOf(log[last], p);
  }

  /** The first run to start after a call belongs to the call's net and has its flag to honour. */
  lemma StartHonoursCall(log: seq<Event>, i: nat, k: nat)
    requires Disciplined(log) && i < k < |log| && log[i].Called? && StartOf(log[k], log[i].promise)
    requires forall s :: i < s < k ==> !StartOf(log[s], log[i].promise)
    ensures log[k].npid == log[i].npid && (!log[i].permit ==> !log[k].permit)
  {
    hide OpenRun, Waiting, HasFailed;
    assert Follows(log[..k], log[k]);
    assert log[..k][i] == log[i];
    NoStartBetween(log, log[i].promise, i, k);
  }

  lemma SettledIsClosed(log: seq<Event>, j: nat, npid: string)
    requires Disciplined(log) && j < |log| && log[j].Settled?
    ensures OpenRun(log[..j], npid) != Some(log[j].promise)
    ensures log[j].ok ==> !HasFailed(log[..j], log[j].promise)
  {
    hide OpenRun, Waiting, HasFailed, OwnedBy, AllPermit;
    assert Follows(log[..j], log[j]);
  }

  lemma ServedBeforeSettled(log: seq<Event>, i: nat, j: nat) returns (k: nat, l: nat)
    requires Disciplined(log) && i < j < |log| && log[i].Called? && log[j] == Settled(log[i].promise, true)
    ensures && i < k < l < j
            && log[k].Started? && log[k].npid == log[i].npid && log[k].promise == log[i].promise
            && log[l] == Finished(log[i].npid, log[i].promise)
            && (forall s :: i < s < k ==> !StartOf(log[s], log[i].promise))
            && (!log[i].permit ==> !log[k].permit)
  {
    hide Disciplined, OpenRun;
    StartBeforeSettled(log, i, j);
    k := FirstStart(log, log[i].promise, i + 1, j);
    StartHonoursCall(log, i, k);
    SettledIsClosed(log, j, log[i].npid);
    l := RunCloses(log, k, j, log[i].npid, log[i].promise);
    assert log[..j][l] == log[l];
  }

  /** A promise rejects exactly when one of its runs failed. */
  lemma RejectedMeansFailed(actions: seq<Action>, j: nat)
    requires j < |Run(actions).log| && Run(actions).log[j].Settled?
    ensures var log := Run(actions).log;
            !log[j].ok <==> exists l :: 0 <= l < j && log[l].Failed? && log[l].promise == log[j].promise
  {
    RunKeepsInv(actions);
    var log := Run(actions).log;
    assert Follows(log[..j], log[j]);
    assert forall l :: 0 <= l < j ==> log[..j][l] == log[l];
    if HasFailed(log[..j], log[j].promise) {
      var l :| 0 <= l < j && log[..j][l].Failed? && log[..j][l].promise == log[j].promise;
      assert log[l].Failed?;
    }
    if l :| 0 <= l < j && log[l].Failed? && log[l].promise == log[j].promise {
      assert log[..j][l].Failed?;
    }
  }

  /** There are never more runs for a net than calls. */
  lemma RunsWithinCalls(actions: seq<Action>, npid: string)
    ensures RunCount(Run(actions).log, npid) <= CallCount(Run(actions).log, npid)
  {
    RunKeepsInv(actions);
    assert Budget(Run(actions), npid);
  }

  /** A call that no run has begun to serve is still owed one by a live state, unless its promise failed. */
  lemma UnservedCallIsOwed(actions: seq<Action>, i: nat)
    requires i < |Run(actions).log| && Run(actions).log[i].Called?
    requires forall s :: i < s < |Run(actions).log| ==> !StartOf(Run(actions).log[s], Run(actions).log[i].promise)
    ensures var m := Run(actions);
            var p := m.log[i].promise;
            || HasFailed(m.log, p)
            || (&& m.log[i].npid in m.states && m.states[m.log[i].npid].promise == p
                && (!m.states[m.log[i].npid].running || m.states[m.log[i].npid].rerunRequested))
  {
    RunKeepsInv(actions);
    var m := Run(actions);
    var p := m.log[i].promise;
    assert m.log[..|m.log|] == m.log;
    NoStartBetween(m.log, p, i, |m.log|);
    assert Waiting(m.log, p);
    assert Owed(m, p);
    if !HasFailed(m.log, p) {
      var npid :| npid in m.states && m.states[npid].promise == p;
      assert EntryFits(m, npid);
    }
  }
}

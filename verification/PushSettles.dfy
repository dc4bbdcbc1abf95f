/** What becomes of the promises push hands out: each is carried by a live state until it settles, once. */
module PushSettles {
  import opened PushRuns

  /** A live state carries the promise. */
  ghost predicate Carried(m: Machine, promise: nat) {
    exists npid :: npid in m.states && m.states[npid].promise == promise
  }

  ghost predicate HasSettled(log: seq<Event>, promise: nat) {
    exists i :: 0 <= i < |log| && log[i].Settled? && log[i].promise == promise
  }

  /** The promise is pending in a live state, about to settle, or settled: exactly one of the three. */
  ghost predicate InOnePlace(m: Machine, promise: nat) {
    && (Carried(m, promise) || promise in m.settling || HasSettled(m.log, promise))
    && !(Carried(m, promise) && promise in m.settling)
    && !(Carried(m, promise) && HasSettled(m.log, promise))
    && !(promise in m.settling && HasSettled(m.log, promise))
  }

  lemma SettledAppend(log: seq<Event>, e: Event, promise: nat)
    ensures HasSettled(log + [e], promise) <==> HasSettled(log, promise) || (e.Settled? && e.promise == promise)
  {
    var after := log + [e];
    assert after[|log|] == e;
    if HasSettled(log, promise) {
      var i :| 0 <= i < |log| && log[i].Settled? && log[i].promise == promise;
      assert after[i] == log[i];
    }
  }

  /** What the invariant says about where promises are. */
  ghost predicate Numbered(m: Machine) {
    && (forall npid :: npid in m.states ==> m.states[npid].promise < m.promises)
    && (forall a, b :: a in m.states && b in m.states && m.states[a].promise == m.states[b].promise ==> a == b)
    && (forall p :: p in m.settling ==> p < m.promises)
    && (forall i :: 0 <= i < |m.log| ==> m.log[i].promise < m.promises)
  }

  lemma InvNumbered(m: Machine)
    requires Inv(m)
    ensures Numbered(m)
  {
    hide Disciplined, Owed, Budget, OpenRun, Waiting, HasFailed, OwnedBy, AllPermit;
    forall npid | npid in m.states ensures m.states[npid].promise < m.promises {
      assert EntryFits(m, npid);
    }
    forall p | p in m.settling ensures p < m.promises {
      assert SettlingFits(m, p);
    }
  }

  /** Rewriting a state in place leaves its promise where it was. */
  lemma RewriteCarries(m: Machine, after: Machine, npid: string, p: nat)
    requires npid in m.states && npid in after.states && after.states == m.states[npid := after.states[npid]]
    requires after.states[npid].promise == m.states[npid].promise
    ensures Carried(after, p) <==> Carried(m, p)
  {
    forall n ensures n in after.states && after.states[n].promise == p <==> n in m.states && m.states[n].promise == p {
    }
  }

  /** Deleting a state drops its promise and no other. */
  lemma DeleteDrops(m: Machine, after: Machine, npid: string, p: nat)
    requires Numbered(m) && npid in m.states && after.states == m.states - {npid}
    ensures Carried(after, p) <==> Carried(m, p) && p != m.states[npid].promise
  {
    if Carried(m, p) && p != m.states[npid].promise {
      var n :| n in m.states && m.states[n].promise == p;
      assert n in after.states && after.states[n].promise == p;
    }
  }

  lemma CloseMovesOne(m: Machine, npid: string, ok: bool, e: Event, p: nat)
    requires Numbered(m) && npid in m.states && InOnePlace(m, p) && !e.Settled?
    ensures InOnePlace(Close(m.(log := m.log + [e]), npid, ok), p)
  {
    hide Carried, HasSettled, Numbered;
    assert Carried(m, m.states[npid].promise) by { CarriedBy(m, npid); }
    DeleteDrops(m, Close(m.(log := m.log + [e]), npid, ok), npid, p);
    SettledAppend(m.log, e, p);
  }

  lemma CarriedBy(m: Machine, npid: string)
    requires npid in m.states
    ensures Carried(m, m.states[npid].promise)
  {
  }

  lemma StartMovesNone(m: Machine, npid: string, p: nat)
    requires npid in m.states && InOnePlace(m, p)
    ensures InOnePlace(StartRun(m, npid), p)
  {
    hide Carried, HasSettled;
    RewriteCarries(m, StartRun(m, npid), npid, p);
    SettledAppend(m.log, Started(npid, m.states[npid].promise, m.states[npid].nextPermit), p);
  }

  lemma CallPlacesOne(m: Machine, npid: string, permit: bool, p: nat)
    requires Numbered(m) && (p < m.promises ==> InOnePlace(m, p)) && p < OnCall(m, npid, permit).promises
    ensures InOnePlace(OnCall(m, npid, permit), p)
  {
    hide HasSettled;
    var after := OnCall(m, npid, permit);
    SettledAppend(m.log, after.log[|m.log|], p);
    assert after.log == m.log + [after.log[|m.log|]];
    if npid in m.states {
      RewriteCarries(m, after, npid, p);
    } else if p == m.promises {
      Unheard(m, p);
      CarriedBy(after, npid);
    } else {
      assert forall n :: n in m.states ==> n in after.states && after.states[n] == m.states[n];
    }
  }

  /** A promise that has not been handed out is nowhere. */
  lemma Unheard(m: Machine, p: nat)
    requires Numbered(m) && m.promises <= p
    ensures !Carried(m, p) && p !in m.settling && !HasSettled(m.log, p)
  {
  }

  lemma StepKeepsPlaces(m: Machine, a: Action, p: nat)
    requires Numbered(m) && (p < m.promises ==> InOnePlace(m, p)) && p < Next(m, a).promises
    ensures InOnePlace(Next(m, a), p)
  {
    hide Carried, HasSettled, Numbered, OnCall, StartRun, Close;
    match a
    case Call(npid, permit) => CallPlacesOne(m, npid, permit, p);
    case Begin(npid) =>
      PromisesStay(m, a);
      if Waits(m, npid) {
        StartMovesNone(m, npid, p);
      }
    case Complete(npid) =>
      PromisesStay(m, a);
      if Runs(m, npid) {
        var e := Finished(npid, m.states[npid].promise);
        if m.states[npid].rerunRequested {
          SettledAppend(m.log, e, p);
          SameStatesCarry(m, m.(log := m.log + [e]), p);
          StartMovesNone(m.(log := m.log + [e]), npid, p);
        } else {
          CloseMovesOne(m, npid, true, e, p);
        }
      }
    case Reject(npid) =>
      PromisesStay(m, a);
      if Runs(m, npid) {
        CloseMovesOne(m, npid, false, Failed(npid, m.states[npid].promise), p);
      }
    case Settle(promise) =>
      PromisesStay(m, a);
      if promise in m.settling {
        SettledAppend(m.log, Settled(promise, m.settling[promise]), p);
        SameStatesCarry(m, Next(m, a), p);
      }
  }

  lemma SameStatesCarry(m: Machine, after: Machine, p: nat)
    requires after.states == m.states
    ensures Carried(after, p) <==> Carried(m, p)
  {
  }

  lemma PromisesStay(m: Machine, a: Action)
    requires !a.Call?
    ensures Next(m, a).promises == m.promises
  {
  }

  /** In every reachable state each promise handed out is in exactly one place. */
  lemma {:induction false} PromisesAreAccounted(actions: seq<Action>, p: nat)
    requires p < Run(actions).promises
    ensures InOnePlace(Run(actions), p)
  {
    hide Next, InOnePlace, Numbered, Inv;
    if actions != [] {
      var init := actions[..|actions| - 1];
      RunKeepsInv(init);
      InvNumbered(Run(init));
      if p < Run(init).promises {
        PromisesAreAccounted(init, p);
      }
      StepKeepsPlaces(Run(init), actions[|actions| - 1], p);
    }
  }

  // ----- What follows -----

  /** The promise a call was given has settled, can settle at once, or is carried by the call's own net. */
  lemma CallIsPending(actions: seq<Action>, i: nat)
    requires i < |Run(actions).log| && Run(actions).log[i].Called?
    ensures var m := Run(actions);
            var p := m.log[i].promise;
            || HasSettled(m.log, p)
            || (p in m.settling && Next(m, Settle(p)).log == m.log + [Settled(p, m.settling[p])])
            || (m.log[i].npid in m.states && m.states[m.log[i].npid].promise == p)
  {
    hide Disciplined, Owed, Budget, OpenRun, Waiting, HasFailed, AllPermit, Run;
    RunKeepsInv(actions);
    var m := Run(actions);
    InvNumbered(m);
    PromisesAreAccounted(actions, m.log[i].promise);
    if Carried(m, m.log[i].promise) {
      var npid :| npid in m.states && m.states[npid].promise == m.log[i].promise;
      assert EntryFits(m, npid);
    }
  }

  /** A promise settles at most once. */
  lemma SettlesOnce(actions: seq<Action>, i: nat, j: nat)
    requires i < j < |Run(actions).log| && Run(actions).log[i].Settled? && Run(actions).log[j].Settled?
    ensures Run(actions).log[i].promise != Run(actions).log[j].promise
    decreases |actions|
  {
    hide Inv, InOnePlace, HasSettled;
    var init, a := actions[..|actions| - 1], actions[|actions| - 1];
    var before, log := Run(init).log, Run(actions).log;
    LogGrows(Run(init), a);
    if j < |before| {
      SettlesOnce(init, i, j);
    } else {
      SettledIsLast(Run(init), a, j);
      SettledSaysWhere(Run(init), i);
      RunKeepsInv(init);
      InvNumbered(Run(init));
      PromisesAreAccounted(init, log[i].promise);
      assert InOnePlace(Run(init), log[i].promise);
      PlacesExclude(Run(init), log[i].promise);
    }
  }

  lemma PlacesExclude(m: Machine, p: nat)
    requires InOnePlace(m, p)
    ensures !(p in m.settling && HasSettled(m.log, p))
  {
  }

  lemma SettledSaysWhere(m: Machine, i: nat)
    requires i < |m.log| && m.log[i].Settled?
    ensures HasSettled(m.log, m.log[i].promise)
  {
  }

  lemma LogGrows(m: Machine, a: Action)
    ensures m.log <= Next(m, a).log
  {
  }

  /** Only a settlement adds a settled event, and only for a promise about to settle. */
  lemma SettledIsLast(m: Machine, a: Action, j: nat)
    requires |m.log| <= j < |Next(m, a).log| && Next(m, a).log[j].Settled?
    ensures Next(m, a).log[j].promise in m.settling
  {
  }

  /** A run that fails rejects the shared promise: nothing stands between the two but the settlement itself. */
  lemma FailureRejects(actions: seq<Action>, npid: string)
    requires Runs(Run(actions), npid)
    ensures var m := Run(actions);
            var p := m.states[npid].promise;
            var after := Next(Next(m, Reject(npid)), Settle(p));
            && after.log == m.log + [Failed(npid, p)] + [Settled(p, false)]
            && npid !in after.states && p !in after.settling
  {
  }

  /** The last run to finish resolves it. */
  lemma LastRunResolves(actions: seq<Action>, npid: string)
    requires Runs(Run(actions), npid) && !Run(actions).states[npid].rerunRequested
    ensures var m := Run(actions);
            var p := m.states[npid].promise;
            var after := Next(Next(m, Complete(npid)), Settle(p));
            && after.log == m.log + [Finished(npid, p)] + [Settled(p, true)]
            && npid !in after.states && p !in after.settling
  {
  }
}

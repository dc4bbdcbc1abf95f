/** What becomes of the promises a coalesced request hands out: each is in flight until it settles, once. */
module CoalescedSettles {
  import opened CoalescedRuns

  /** The promise is the one inFlight holds. */
  predicate InFlight(m: Machine, promise: nat) {
    !m.phase.Idle? && promise + 1 == m.drains
  }

  ghost predicate HasSettled(log: seq<Event>, promise: nat) {
    exists i :: 0 <= i < |log| && log[i].Settled? && log[i].promise == promise
  }

  /** The promise is in flight, about to settle, or settled: exactly one of the three. */
  ghost predicate InOnePlace(m: Machine, promise: nat) {
    && (InFlight(m, promise) || promise in m.settling || HasSettled(m.log, promise))
    && !(InFlight(m, promise) && promise in m.settling)
    && !(InFlight(m, promise) && HasSettled(m.log, promise))
    && !(promise in m.settling && HasSettled(m.log, promise))
  }

  lemma SettledAppend(log: seq<Event>, e: Event, promise: nat)
    ensures HasSettled(log + [e], promise) <==> HasSettled(log, promise) || (e.Settled? && e.promise == promise)
  {
    var after := log + [e];
    assert after[|log|] == e;
    if HasSettled(log, promise) {
      var i :| 0 <= i < |log| && log[i].Settled? && log[i].promise == promise;
      assert after[i] == log[i];
    }
  }

  /** Promises are numbered by drains. */
  ghost predicate Numbered(m: Machine) {
    && Bounded(m) && (forall p :: p in m.settling ==> p < m.drains) && (!m.phase.Idle? ==> m.drains > 0)
  }

  lemma InvNumbered(m: Machine)
    requires Inv(m)
    ensures Numbered(m)
  {
    hide Disciplined, OpenRun, Waiting, HasFailed, Requests, Executions;
    forall p | p in m.settling ensures p < m.drains {
      var i :| 0 <= i < |m.log| && m.log[i] == DrainEnded(p, m.settling[p]);
      assert m.log[i].promise < m.drains;
    }
  }

  lemma StepKeepsPlaces(m: Machine, a: Action, p: nat)
    requires Numbered(m) && (p < m.drains ==> InOnePlace(m, p)) && p < Next(m, a).drains
    ensures InOnePlace(Next(m, a), p)
  {
    hide HasSettled;
    var q := Current(m);
    SettledAppend(m.log, Requested(q), p);
    SettledAppend(m.log, Executed(q), p);
    SettledAppend(m.log, Completed(q), p);
    SettledAppend(m.log + [Completed(q)], Executed(q), p);
    SettledAppend(m.log + [Completed(q)], DrainEnded(q, true), p);
    SettledAppend(m.log, Failed(q), p);
    SettledAppend(m.log + [Failed(q)], DrainEnded(q, false), p);
    assert m.log + [Failed(q), DrainEnded(q, false)] == m.log + [Failed(q)] + [DrainEnded(q, false)];
    if p >= m.drains {
      Unheard(m, p);
    }
    if a.Settle? && a.promise in m.settling {
      SettledAppend(m.log, Settled(a.promise, m.settling[a.promise]), p);
    }
  }

  lemma Unheard(m: Machine, p: nat)
    requires Numbered(m) && m.drains <= p
    ensures p !in m.settling && !HasSettled(m.log, p)
  {
  }

  /** In every reachable state the promise of each drain begun is in exactly one place. */
  lemma {:induction false} PromisesAreAccounted(actions: seq<Action>, p: nat)
    requires p < Run(actions).drains
    ensures InOnePlace(Run(actions), p)
  {
    hide Next, InOnePlace, Numbered, Inv;
    if actions != [] {
      var init := actions[..|actions| - 1];
      RunKeepsInv(init);
      InvNumbered(Run(init));
      if p < Run(init).drains {
        PromisesAreAccounted(init, p);
      }
      StepKeepsPlaces(Run(init), actions[|actions| - 1], p);
    }
  }

  /** The promise a request was given has settled, can settle at once, or is the one in flight. */
  lemma RequestIsPending(actions: seq<Action>, i: nat)
    requires i < |Run(actions).log| && Run(actions).log[i].Requested?
    ensures var m := Run(actions);
            var p := m.log[i].promise;
            || HasSettled(m.log, p)
            || (p in m.settling && Next(m, Settle(p)).log == m.log + [Settled(p, m.settling[p])])
            || (InFlight(m, p) && Current(m) == p)
  {
    hide Inv, Run, HasSettled;
    RunKeepsInv(actions);
    InvNumbered(Run(actions));
    PromisesAreAccounted(actions, Run(actions).log[i].promise);
  }

  /** Once the drain has ended, the finally callback and the settlement tell the callers how. */
  lemma EndedDrainSettles(actions: seq<Action>)
    requires Run(actions).phase.Finishing?
    ensures var m := Run(actions);
            var p := Current(m);
            var after := Next(Next(m, Release), Settle(p));
            && after.log == m.log + [Settled(p, m.phase.ok)]
            && after.phase.Idle? && p !in after.settling && Ended(m.log, p, m.phase.ok)
  {
    hide Disciplined, OpenRun, Waiting, HasFailed, Requests, Executions;
    RunKeepsInv(actions);
  }
}

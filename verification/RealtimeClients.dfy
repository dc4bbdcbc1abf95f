/**
 RealtimeClients.push: one shared promise per net while a push is under way. A call that finds a push
 under way asks for a rerun and joins its promise; the drain repeats until nobody asked again.
 */
module RealtimeClients {
  import opened Wrappers
  import opened PushRuns

  /** What push keeps per net, and where the drain behind its promise stands. */
  class PushState {
    const promise: nat
    var rerunRequested: bool
    var nextPermitCachedResponse: bool
    var running: bool

    ghost function Value(): Entry
      reads this
    {
      Entry(promise, rerunRequested, nextPermitCachedResponse, running)
    }

    constructor (promise: nat, permitCachedResponse: bool)
      ensures Value() == Entry(promise, false, permitCachedResponse, false)
    {
      this.promise := promise;
      rerunRequested := false;
      nextPermitCachedResponse := permitCachedResponse;
      running := false;
    }
  }

  class RealtimeClients {
    var pushStates: map<string, PushState>
    var settling: map<nat, bool>
    var promises: nat
    ghost var log: seq<Event>

    /** Different nets have different state records. */
    ghost predicate Valid()
      reads this
    {
      forall a, b :: a in pushStates && b in pushStates && a != b ==> pushStates[a] != pushStates[b]
    }

    ghost function Abstract(): Machine
      reads this, pushStates.Values
    {
      Machine(States(), settling, promises, log)
    }

    ghost function States(): map<string, Entry>
      reads this, pushStates.Values
    {
      map npid | npid in pushStates :: pushStates[npid].Value()
    }

    constructor ()
      ensures Valid()
      ensures Abstract() == INITIAL
    {
      pushStates := map[];
      settling := map[];
      promises := 0;
      log := [];
    }

    /** The synchronous part of push: join the push under way, or create a state and queue its drain. */
    method Push(npid: string, permitCachedResponse: bool) returns (promise: nat)
      requires Valid()
      modifies this, pushStates.Values
      ensures Valid()
      ensures npid in pushStates && (npid !in old(pushStates) ==> fresh(pushStates[npid]))
      ensures forall n :: n in old(pushStates) ==> n in pushStates && pushStates[n] == old(pushStates[n])
      ensures Abstract() == Next(old(Abstract()), Call(npid, permitCachedResponse))
      ensures log == old(log) + [Called(npid, permitCachedResponse, promise)]
    {
      hide StartRun, Close, Runs, Waits;
      if npid in pushStates {
        var existingState := pushStates[npid];
        existingState.rerunRequested := true;
        // A request for fresh data takes precedence over one that permits a cached response.
        existingState.nextPermitCachedResponse := existingState.nextPermitCachedResponse && permitCachedResponse;
        promise := existingState.promise;
      } else {
        var state := new PushState(promises, permitCachedResponse);
        promise := promises;
        promises := promises + 1;
        pushStates := pushStates[npid := state];
      }
      log := log + [Called(npid, permitCachedResponse, promise)];
      EntryUpdated(npid);
    }

    /** When one net's record is written or created, one entry of the abstract map changes. */
    twostate lemma EntryUpdated(npid: string)
      requires npid in pushStates && pushStates.Keys == old(pushStates).Keys + {npid}
      requires forall n :: n in old(pushStates) && n != npid ==>
                 pushStates[n] == old(pushStates)[n] && pushStates[n].Value() == old(pushStates[n].Value())
      ensures States() == old(States())[npid := pushStates[npid].Value()]
    {
    }

    /** The top of the drain's loop: read the flag, clear both fields and hand the flag to pushOnce. */
    method StartPushOnce(npid: string) returns (permit: bool)
      requires Valid() && npid in pushStates
      modifies this`log, pushStates[npid]
      ensures Valid()
      ensures Abstract() == StartRun(old(Abstract()), npid)
      ensures log == old(log) + [Started(npid, pushStates[npid].promise, permit)]
    {
      var state := pushStates[npid];
      permit := state.nextPermitCachedResponse;
      state.rerunRequested := false;
      state.nextPermitCachedResponse := true;
      state.running := true;
      log := log + [Started(npid, state.promise, permit)];
      EntryUpdated(npid);
    }

    /** The microtask that begins the drain. */
    method DrainBegins(npid: string)
      requires Valid() && npid in pushStates && !pushStates[npid].running
      modifies this`log, pushStates[npid]
      ensures Valid()
      ensures Abstract() == Next(old(Abstract()), Begin(npid))
    {
      var permit := StartPushOnce(npid);
    }

    /** pushOnce has completed: test the loop condition, and rerun or leave through the finally block. */
    method PushOnceCompletes(npid: string)
      requires Valid() && npid in pushStates && pushStates[npid].running
      modifies this, pushStates[npid]
      ensures Valid() && pushStates.Values <= old(pushStates.Values)
      ensures Abstract() == Next(old(Abstract()), Complete(npid))
    {
      hide StartRun, OnCall, Waits;
      var state := pushStates[npid];
      log := log + [Finished(npid, state.promise)];
      assert Abstract() == old(Abstract()).(log := log);
      if state.rerunRequested {
        var permit := StartPushOnce(npid);
      } else {
        pushStates := pushStates - {npid};
        settling := settling[state.promise := true];
        assert States() == old(States()) - {npid};
      }
    }

    /** pushOnce has thrown: the finally block runs and the shared promise will reject. */
    method PushOnceRejects(npid: string)
      requires Valid() && npid in pushStates && pushStates[npid].running
      modifies this
      ensures Valid() && pushStates.Values <= old(pushStates.Values)
      ensures Abstract() == Next(old(Abstract()), Reject(npid))
    {
      var state := pushStates[npid];
      log := log + [Failed(npid, state.promise)];
      pushStates := pushStates - {npid};
      settling := settling[state.promise := false];
      assert States() == old(States()) - {npid};
    }

    /** The microtask in which the callers' promise resolves or rejects. */
    method PromiseSettles(promise: nat) returns (ok: bool)
      requires Valid() && promise in settling
      modifies this`settling, this`log
      ensures Valid()
      ensures Abstract() == Next(old(Abstract()), Settle(promise))
      ensures ok == old(settling)[promise]
    {
      ok := settling[promise];
      settling := settling - {promise};
      log := log + [Settled(promise, ok)];
    }
  }
}

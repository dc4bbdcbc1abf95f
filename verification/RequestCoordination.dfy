/** CoalescedAsyncRequest: overlapping requests share one drain, which executes until nobody asked again. */
module RequestCoordination {
  import opened Wrappers
  import opened CoalescedRuns

  class CoalescedAsyncRequest {
    var inFlight: Option<nat>
    var trailingRequested: bool
    var requestCount: nat
    var executionCount: nat
    var coalescedCount: nat
    // Where the drain behind inFlight stands, the promises still to settle, and how many there were.
    var phase: Phase
    var settling: map<nat, bool>
    var drains: nat
    ghost var log: seq<Event>

    ghost predicate Valid()
      reads this
    {
      (phase.Idle? && inFlight.None?) || (!phase.Idle? && drains > 0 && inFlight == Some(drains - 1))
    }

    ghost function Abstract(): Machine
      reads this
    {
      Machine(phase, trailingRequested, requestCount, executionCount, coalescedCount, drains, settling, log)
    }

    constructor ()
      ensures Valid() && Abstract() == INITIAL
    {
      inFlight, trailingRequested := None, false;
      requestCount, executionCount, coalescedCount := 0, 0, 0;
      phase, settling, drains, log := Idle, map[], 0, [];
    }

    predicate Active()
      reads this
    {
      inFlight.Some?
    }

    /** The synchronous part of request. */
    method MakeRequest() returns (promise: nat)
      requires Valid()
      modifies this
      ensures Valid() && Active()
      ensures Abstract() == Next(old(Abstract()), Request)
      ensures log == old(log) + [Requested(promise)]
    {
      requestCount := requestCount + 1;
      if inFlight.Some? {
        coalescedCount := coalescedCount + 1;
        trailingRequested := true;
        promise := inFlight.value;
      } else {
        promise := drains;
        inFlight := Some(promise);
        phase, drains := Queued, drains + 1;
      }
      log := log + [Requested(promise)];
    }

    /** The top of the drain's loop. */
    method BeginOperation()
      requires Valid() && !phase.Idle?
      modifies this
      ensures Valid() && Abstract() == Execute(old(Abstract()))
    {
      trailingRequested := false;
      executionCount := executionCount + 1;
      phase := Running;
      log := log + [Executed(drains - 1)];
    }

    /** The microtask that begins the drain. */
    method DrainBegins()
      requires Valid() && phase.Queued?
      modifies this
      ensures Valid() && Abstract() == Next(old(Abstract()), Begin)
    {
      BeginOperation();
    }

    /** The operation has completed: test the loop condition. inFlight is not cleared here. */
    method OperationCompletes()
      requires Valid() && phase.Running?
      modifies this
      ensures Valid() && Active() && Abstract() == Next(old(Abstract()), Complete)
    {
      log := log + [Completed(drains - 1)];
      if trailingRequested {
        BeginOperation();
      } else {
        phase := Finishing(true);
        log := log + [DrainEnded(drains - 1, true)];
      }
    }

    /** The operation has thrown out of the drain. inFlight is not cleared here either. */
    method OperationRejects()
      requires Valid() && phase.Running?
      modifies this
      ensures Valid() && Active() && Abstract() == Next(old(Abstract()), Reject)
    {
      phase := Finishing(false);
      log := log + [Failed(drains - 1), DrainEnded(drains - 1, false)];
    }

    /** The finally callback. */
    method FinallyCallback()
      requires Valid() && phase.Finishing?
      modifies this
      ensures Valid() && !Active() && Abstract() == Next(old(Abstract()), Release)
    {
      settling := settling[drains - 1 := phase.ok];
      inFlight := None;
      phase := Idle;
    }

    /** The microtask in which the callers' promise resolves or rejects. */
    method PromiseSettles(promise: nat) returns (ok: bool)
      requires Valid() && promise in settling
      modifies this
      ensures Valid() && Abstract() == Next(old(Abstract()), Settle(promise))
      ensures ok == old(settling)[promise]
    {
      ok := settling[promise];
      settling := settling - {promise};
      log := log + [Settled(promise, ok)];
    }
  }
}

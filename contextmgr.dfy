/**
 * `ContextManager` of packages/data/src/context-manager.ts: the jobs started under a parent
 * context, each either running (with its own cancellable child context) or cancelled. The
 * warnings it logs are left out.
 */
module ContextManagers {

  /** A cancellable context; `cancelled` flips when its cancel function is called. */
  class Scope {
    var cancelled: bool

    constructor (cancelled: bool)
      ensures this.cancelled == cancelled
    {
      this.cancelled := cancelled;
    }

    method Cancel()
      modifies this
      ensures cancelled
    {
      cancelled := true;
    }
  }

  class ContextManager<T(==)> {
    /** `runningJobs`: each running job and its child context. */
    var running: map<T, Scope>
    /** `cancelledJobs` */
    var cancelled: set<T>

    /** No job is both running and cancelled, and no two running jobs share a context. */
    ghost predicate Valid()
      reads this
    {
      && running.Keys !! cancelled
      && forall a, b :: a in running && b in running && a != b ==> running[a] != running[b]
    }

    constructor ()
      ensures Valid() && running == map[] && cancelled == {}
    {
      running := map[];
      cancelled := {};
    }

    /**
     * `start(id)`: a running job gets its context back; a cancelled one gets a fresh
     * cancelled context; any other job gets a fresh child context and becomes running.
     */
    method Start(id: T) returns (ctx: Scope)
      requires Valid()
      modifies this
      ensures Valid()
      ensures old(id in running) ==> ctx == old(running[id]) && running == old(running) && cancelled == old(cancelled)
      ensures old(id !in running && id in cancelled) ==>
        fresh(ctx) && ctx.cancelled && running == old(running) && cancelled == old(cancelled)
      ensures old(id !in running && id !in cancelled) ==>
        fresh(ctx) && !ctx.cancelled && running == old(running)[id := ctx] && cancelled == old(cancelled)
    {
      if id in running {
        ctx := running[id];
      } else if id in cancelled {
        ctx := new Scope(true);
      } else {
        ctx := new Scope(false);
        running := running[id := ctx];
      }
    }

    /**
     * `cancel(id)`: a running job's context is cancelled and the job moves to the cancelled
     * set; for any other job nothing changes.
     */
    method Cancel(id: T)
      requires Valid()
      modifies this, running.Values
      ensures Valid()
      ensures old(id in running) ==>
        old(running[id]).cancelled && running == old(running) - {id} && cancelled == old(cancelled) + {id}
      ensures old(id !in running) ==> running == old(running) && cancelled == old(cancelled)
      ensures forall k :: k in running ==> running[k].cancelled == old(running[k].cancelled)
    {
      if id in running {
        var scope := running[id];
        scope.Cancel();
        running := running - {id};
        cancelled := cancelled + {id};
      }
    }

    /**
     * `finish(id)`: a known job is forgotten, its context cancelled if it was running; an
     * unknown job changes nothing.
     */
    method Finish(id: T)
      requires Valid()
      modifies this, running.Values
      ensures Valid()
      ensures old(id in running) ==> old(running[id]).cancelled
      ensures running == old(running) - {id} && cancelled == old(cancelled) - {id}
      ensures forall k :: k in running ==> running[k].cancelled == old(running[k].cancelled)
    {
      if id in running || id in cancelled {
        if id in running {
          running[id].Cancel();
        }
        running := running - {id};
        cancelled := cancelled - {id};
      }
    }

    /**
     * `finishAll`: finish every job of a snapshot of the running ones. Afterwards nothing runs,
     * every formerly running context is cancelled, and the cancelled set is as it was.
     */
    method FinishAll()
      requires Valid()
      modifies this, running.Values
      ensures Valid()
      ensures running == map[] && cancelled == old(cancelled)
      ensures forall k :: k in old(running) ==> old(running)[k].cancelled
    {
      var snapshot := running.Keys;
      var rest := snapshot;
      while rest != {}
        invariant Valid()
        invariant rest <= snapshot && running.Keys == rest
        invariant forall k :: k in rest ==> running[k] == old(running)[k]
        invariant cancelled == old(cancelled)
        invariant forall k :: k in snapshot - rest ==> old(running)[k].cancelled
        decreases |rest|
      {
        var job :| job in rest;
        Finish(job);
        rest := rest - {job};
      }
    }
  }
}

/** The polling runner of one relay process, and the startup step that precedes it. */
module BackgroundRunner {
  import opened Options
  import opened JobTypes
  import opened JobTable
  import opened JobStore

  const DEFAULT_MAX_JOBS_PER_TICK := 4

  function MaxJobsPerTick(option: Option<int>): (r: nat)
    ensures r >= 1
    ensures option.Some? && option.value >= 1 ==> r == option.value
    ensures option.Some? && option.value < 1 ==> r == 1
    ensures option == None ==> r == 4
  {
    var asked := if option.Some? then option.value else DEFAULT_MAX_JOBS_PER_TICK;
    if asked < 1 then 1 else asked
  }

  class Runner {
    const store: Store
    const maxJobsPerTick: nat
    var inFlight: set<string>
    var running: bool
    var stopped: bool

    /** What holds between two turns of the event loop. */
    ghost predicate Valid()
      reads this, store
    {
      store.Valid() && !running && 1 <= maxJobsPerTick && |inFlight| <= maxJobsPerTick
    }

    constructor (store: Store, maxJobs: Option<int>)
      requires store.Valid()
      ensures Valid()
      ensures this.store == store && maxJobsPerTick == MaxJobsPerTick(maxJobs)
      ensures inFlight == {} && !stopped
    {
      this.store := store;
      this.maxJobsPerTick := MaxJobsPerTick(maxJobs);
      inFlight := {};
      running := false;
      stopped := false;
    }

    /**
     * One poll: claims into the free capacity and dispatches every claimed job. The capacity is
     * positive and so the claim's own clamp to 1..25 can only lower it.
     */
    method Tick(nowMs: int) returns (dispatched: seq<Job>)
      requires Valid()
      modifies this, store
      ensures Valid()
      ensures stopped == old(stopped)
      ensures old(stopped) || |old(inFlight)| >= maxJobsPerTick ==>
                dispatched == [] && store.rows == old(store.rows) && inFlight == old(inFlight)
      ensures !old(stopped) && |old(inFlight)| < maxJobsPerTick ==>
                && OldestQueued(old(store.rows), EffectiveLimit(maxJobsPerTick - |old(inFlight)|), JobIds(dispatched))
                && store.rows == ClaimedTable(old(store.rows), JobIds(dispatched), nowMs)
                && inFlight == old(inFlight) + IdSet(JobIds(dispatched))
      ensures forall i :: 0 <= i < |dispatched| ==> Lookup(store.rows, dispatched[i].id) == Some(dispatched[i])
    {
      dispatched := [];
      if running || stopped {
        return;
      }
      running := true;
      if |inFlight| >= maxJobsPerTick {
        running := false;
        return;
      }
      var capacity := maxJobsPerTick - |inFlight|;
      var claimed := store.ClaimQueuedJobs(nowMs, capacity);
      Dispatch(claimed);
      dispatched := claimed;
      running := false;
    }

    /** The dispatch loop; each `runSingleJob` runs on its own from here. */
    method Dispatch(claimed: seq<Job>)
      modifies this`inFlight
      ensures inFlight == old(inFlight) + IdSet(JobIds(claimed))
      ensures |inFlight| <= |old(inFlight)| + |claimed|
    {
      var ids := JobIds(claimed);
      for k := 0 to |claimed|
        invariant inFlight == old(inFlight) + IdSet(ids[..k])
      {
        OneMoreId(ids, k);
        inFlight := inFlight + {claimed[k].id};
      }
      assert ids[..|claimed|] == ids;
      IdSetCount(ids);
      assert |old(inFlight) + IdSet(ids)| <= |old(inFlight)| + |IdSet(ids)|;
    }

    /** `runSingleJob` up to the status check: the executor has settled, its slot is free again. */
    method ReleaseAndCheck(id: string) returns (current: Option<Job>)
      requires Valid()
      modifies this
      ensures Valid()
      ensures inFlight == old(inFlight) - {id} && stopped == old(stopped)
      ensures current == Lookup(store.rows, id)
    {
      inFlight := inFlight - {id};
      current := store.GetJob(id);
    }

    /**
     * `runSingleJob` from the settled executor to the completion hook, when no other process writes
     * in between. `delivered` is the record handed to the hook.
     */
    method FinishJob(id: string, o: Outcome, nowMs: int) returns (delivered: Option<Job>)
      requires Valid()
      modifies this, store
      ensures Valid()
      ensures inFlight == old(inFlight) - {id} && stopped == old(stopped)
      ensures store.rows == CompletedTable(old(store.rows), id, o, nowMs)
      ensures delivered == Lookup(store.rows, id)
      ensures id in old(store.rows) && old(store.rows)[id].status != Queued ==> IsTerminal(store.rows[id].status)
    {
      var current := ReleaseAndCheck(id);
      if current == None || current.value.status != Running {
        return current;
      }
      var persisted, transitioned := store.CompleteJob(id, o, None, nowMs);
      return persisted;
    }

    method Stop()
      requires Valid()
      modifies this
      ensures Valid()
      ensures stopped && inFlight == old(inFlight)
    {
      stopped := true;
    }
  }

  /** Flips the rows a previous process left running, and returns them to be announced one by one. */
  method HandleStartupInterruptions(store: Store, nowMs: int) returns (interrupted: seq<Job>)
    requires store.Valid()
    modifies store
    ensures store.Valid()
    ensures store.rows == InterruptedTable(old(store.rows), nowMs, RESTART_REASON)
    ensures Distinct(JobIds(interrupted)) && IdSet(JobIds(interrupted)) == RunningIds(old(store.rows))
    ensures forall i :: 0 <= i < |interrupted| ==>
              && Lookup(store.rows, interrupted[i].id) == Some(interrupted[i])
              && interrupted[i].status == Interrupted && interrupted[i].completedAt == Some(nowMs)
              && interrupted[i].error == Some("Relay restarted while job was running")
  {
    interrupted := store.MarkInterruptedOnStartup(nowMs, RESTART_REASON);
  }
}

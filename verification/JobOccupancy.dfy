/**
 * One relay at a time: a process boots only when no other relay is up, and it runs the startup
 * interruption before its runner. CLI processes still interleave, and the relay may crash anywhere.
 */
module JobOccupancy {
  import opened JobTable
  import opened JobStore
  import opened JobProtocol
  import opened JobSafety

  ghost predicate OneRelayAtATime(run: seq<Sys>, acts: seq<Step>)
    requires |run| == |acts| + 1
  {
    forall i :: 0 <= i < |acts| && acts[i].Boot? ==> run[i].relays == map[]
  }

  /** The relay will still finish this job: it is in flight, or its terminal write is the next thing to happen. */
  predicate Owns(relay: Relay, id: string) {
    relay.Live? && (id in relay.inFlight || (relay.phase.Checked? && relay.phase.id == id))
  }

  ghost predicate Attended(s: Sys) {
    && (forall r, q :: r in s.relays && q in s.relays ==> r == q)
    && (forall r, id :: r in s.relays && id in RunningIds(s.table) ==> Owns(s.relays[r], id))
  }

  lemma OwnedAfterStart(s: Sys, a: Step, id: string)
    requires Enabled(s, a) && a.Boot?
    ensures id !in RunningIds(Apply(s, a).table)
  {
    InterruptSets(s.table, a.nowMs, RESTART_REASON);
  }

  lemma OwnedAfterStep(s: Sys, a: Step, r: nat, id: string)
    requires Inv(s) && Attended(s) && Enabled(s, a) && !a.Boot?
    requires r in Apply(s, a).relays && id in RunningIds(Apply(s, a).table)
    ensures Owns(Apply(s, a).relays[r], id)
  {
    RankNeverFalls(s, a, id);
    ClaimsExactly(s, a, id);
    assert a.Tick? && id in a.ids ==> id in IdSet(a.ids);
    assert id in RunningIds(s.table) ==> Owns(s.relays[r], id);
  }

  lemma AttendedStep(s: Sys, a: Step)
    requires Inv(s) && Attended(s) && Enabled(s, a)
    requires a.Boot? ==> s.relays == map[]
    ensures Attended(Apply(s, a))
  {
    var s' := Apply(s, a);
    forall r, id | r in s'.relays && id in RunningIds(s'.table) ensures Owns(s'.relays[r], id) {
      if a.Boot? {
        OwnedAfterStart(s, a, id);
      } else {
        OwnedAfterStep(s, a, r, id);
      }
    }
  }

  lemma {:induction false} AttendedOnRun(run: seq<Sys>, acts: seq<Step>, i: nat)
    requires IsRun(run, acts) && OneRelayAtATime(run, acts) && i < |run|
    ensures Attended(run[i])
  {
    if i > 0 {
      AttendedOnRun(run, acts, i - 1);
      InvOnRun(run, acts, i - 1);
      AttendedStep(run[i - 1], acts[i - 1]);
    }
  }

  /**
   * At every event-loop boundary of the relay each running row is one of its jobs in flight, so no row
   * is stuck in `running` and at most `maxJobsPerTick` rows are running at all.
   */
  lemma RunningAreInFlight(run: seq<Sys>, acts: seq<Step>, i: nat, r: nat)
    requires IsRun(run, acts) && OneRelayAtATime(run, acts) && i < |run| && Ready(run[i], r)
    ensures RunningIds(run[i].table) <= run[i].relays[r].inFlight
    ensures |RunningIds(run[i].table)| <= |run[i].relays[r].inFlight| <= run[i].relays[r].max
  {
    AttendedOnRun(run, acts, i);
    CapacityOnRun(run, acts, i, r);
    assert forall id :: id in RunningIds(run[i].table) ==> Owns(run[i].relays[r], id);
    SubsetCount(RunningIds(run[i].table), run[i].relays[r].inFlight);
  }

  // ----- Any number of relays

  ghost predicate EveryRunningRowOwned(s: Sys) {
    forall id :: id in RunningIds(s.table) ==> exists r :: r in s.relays && Owns(s.relays[r], id)
  }

  lemma OwnerKeepsJob(s: Sys, a: Step, r: nat, id: string)
    requires Inv(s) && Enabled(s, a) && !a.Crash? && r in s.relays && Owns(s.relays[r], id)
    requires id in RunningIds(s.table) && id in RunningIds(Apply(s, a).table)
    ensures r in Apply(s, a).relays && Owns(Apply(s, a).relays[r], id)
  {
  }

  lemma ClaimerOwnsJob(s: Sys, a: Step, id: string)
    requires Enabled(s, a) && Claims(a, id)
    ensures a.relay in Apply(s, a).relays && Owns(Apply(s, a).relays[a.relay], id)
  {
  }

  lemma OwnedStep(s: Sys, a: Step)
    requires Inv(s) && EveryRunningRowOwned(s) && Enabled(s, a) && !a.Crash?
    ensures EveryRunningRowOwned(Apply(s, a))
  {
    forall id | id in RunningIds(Apply(s, a).table)
      ensures exists r :: r in Apply(s, a).relays && Owns(Apply(s, a).relays[r], id)
    {
      if Claims(a, id) {
        ClaimerOwnsJob(s, a, id);
      } else {
        RunningBefore(s, a, id);
        var r :| r in s.relays && Owns(s.relays[r], id);
        OwnerKeepsJob(s, a, r, id);
      }
    }
  }

  lemma RunningBefore(s: Sys, a: Step, id: string)
    requires Inv(s) && Enabled(s, a) && id in RunningIds(Apply(s, a).table) && !Claims(a, id)
    ensures id in RunningIds(s.table)
  {
  }

  /** However many relays poll one table, a running row without an owner is the work of a crash. */
  lemma {:induction false} OrphansNeedACrash(run: seq<Sys>, acts: seq<Step>, i: nat)
    requires IsRun(run, acts) && i < |run| && forall k :: 0 <= k < i ==> !acts[k].Crash?
    ensures EveryRunningRowOwned(run[i])
  {
    if i > 0 {
      OrphansNeedACrash(run, acts, i - 1);
      InvOnRun(run, acts, i - 1);
      OwnedStep(run[i - 1], acts[i - 1]);
    }
  }

  /** Between the startup interruption and the first tick nothing is running. */
  lemma NothingRunsAtLaunch(run: seq<Sys>, acts: seq<Step>, i: nat, r: nat)
    requires IsRun(run, acts) && OneRelayAtATime(run, acts) && i < |run|
    requires r in run[i].relays
    requires run[i].relays[r].Booted? || (run[i].relays[r].inFlight == {} && !run[i].relays[r].phase.Checked?)
    ensures RunningIds(run[i].table) == {}
  {
    AttendedOnRun(run, acts, i);
    assert forall id :: id in RunningIds(run[i].table) ==> Owns(run[i].relays[r], id);
  }
}

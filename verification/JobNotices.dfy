/**
 * Who tells the operator that a job has ended: the completion hook, or after a crash the startup
 * interruption of the next relay. However many relays share the table, a job is announced at most once as
 * long as no relay starts up over a row that another one is still running, and a claimed job ends
 * unannounced in exactly four ways.
 */
module JobNotices {
  import opened JobTable
  import opened JobStore
  import opened JobProtocol
  import opened JobSafety
  import opened JobOccupancy

  /** The step announces the end of `id`: through the hook, or as an interrupted job at startup. */
  predicate Notifies(s: Sys, a: Step, id: string) {
    (HookCall(s, a).Some? && HookCall(s, a).value.id == id) || (a.Boot? && id in RunningIds(s.table))
  }

  /** An announcement of `id` is still to come: a relay holds it, or the next startup will find it running. */
  ghost predicate Pending(s: Sys, id: string) {
    HeldSomewhere(s, id) || id in RunningIds(s.table)
  }

  /**
   * The step ends `id` without announcing it: a relay dies holding a job whose row is not running any more,
   * a job is cancelled while no relay holds it, or its row was pruned before its relay read it.
   */
  ghost predicate Loses(s: Sys, a: Step, id: string) {
    match a
    case Crash(r) => r in s.relays && id in Held(s.relays[r]) && id !in RunningIds(s.table)
    case Cancel(target, _) => target == id && id in RunningIds(s.table) && !HeldSomewhere(s, id)
    case Settle(_, target, _) => target == id && id !in s.table
    case Reread(r) => IsLive(s, r) && s.relays[r].phase == Written(id) && id !in s.table
    case _ => false
  }

  // ----- One step

  lemma HookEndsWaiting(s: Sys, a: Step, id: string)
    requires Inv(s) && Enabled(s, a) && HookCall(s, a).Some? && HookCall(s, a).value.id == id
    ensures Pending(s, id) && !Pending(Apply(s, a), id) && !Loses(s, a, id)
  {
    HookStep(s, a);
  }

  /** The step is no startup that finds `id` running in the hands of another relay. */
  ghost predicate SafeStart(s: Sys, a: Step, id: string) {
    a.Boot? && id in RunningIds(s.table) ==> !HeldSomewhere(s, id)
  }

  lemma BootEndsWaiting(s: Sys, a: Step, id: string)
    requires Inv(s) && Enabled(s, a) && a.Boot? && id in RunningIds(s.table) && !HeldSomewhere(s, id)
    ensures Pending(s, id) && !Pending(Apply(s, a), id)
  {
    InterruptSets(s.table, a.nowMs, RESTART_REASON);
    assert forall r :: r in Apply(s, a).relays && id in Held(Apply(s, a).relays[r]) ==> r in s.relays;
  }

  lemma LossEndsWaiting(s: Sys, a: Step, id: string)
    requires Inv(s) && Enabled(s, a) && Loses(s, a, id)
    ensures Pending(s, id) && !Pending(Apply(s, a), id) && !Notifies(s, a, id)
  {
    if !a.Cancel? {
      var r := a.relay;
      assert id in Held(s.relays[r]);
      assert forall q :: q in s.relays && id in Held(s.relays[q]) ==> q == r;
    }
  }

  lemma HeldStays(s: Sys, a: Step, r: nat, id: string)
    requires Inv(s) && Enabled(s, a) && r in s.relays && id in Held(s.relays[r])
    ensures Pending(Apply(s, a), id) || Notifies(s, a, id) || Loses(s, a, id)
  {
    if a == Crash(r) {
      assert id in RunningIds(s.table) ==> id in RunningIds(Apply(s, a).table);
    } else if !(r in Apply(s, a).relays && id in Held(Apply(s, a).relays[r])) {
      LeavesTheHands(s, a, r, id);
      assert RelayOk(s.table, s.relays[r]);
      assert id in s.table ==> s.table[id].id == id;
    }
  }

  lemma RunningStays(s: Sys, a: Step, id: string)
    requires Inv(s) && Enabled(s, a) && id in RunningIds(s.table) && !HeldSomewhere(s, id)
    ensures Pending(Apply(s, a), id) || Notifies(s, a, id) || Loses(s, a, id)
  {
    if a.Write? {
      assert s.relays[a.relay].phase.id in Held(s.relays[a.relay]);
    }
  }

  /** An announcement or a loss is exactly a step after which nothing is to come any more, and never both. */
  lemma EndsExactly(s: Sys, a: Step, id: string)
    requires Inv(s) && Enabled(s, a) && SafeStart(s, a, id)
    ensures Notifies(s, a, id) || Loses(s, a, id) <==> Pending(s, id) && !Pending(Apply(s, a), id)
    ensures !(Notifies(s, a, id) && Loses(s, a, id))
  {
    if Loses(s, a, id) {
      LossEndsWaiting(s, a, id);
    } else if HookCall(s, a).Some? && HookCall(s, a).value.id == id {
      HookEndsWaiting(s, a, id);
    } else if a.Boot? && id in RunningIds(s.table) {
      BootEndsWaiting(s, a, id);
    } else if HeldSomewhere(s, id) {
      var r :| r in s.relays && id in Held(s.relays[r]);
      HeldStays(s, a, r, id);
    } else if id in RunningIds(s.table) {
      RunningStays(s, a, id);
    }
  }

  // ----- Runs

  lemma PendingIsClaimed(s: Sys, id: string)
    requires Inv(s) && Pending(s, id)
    ensures Rank(s, id) >= 2
  {
  }

  /** A job that has been claimed and awaits no announcement never awaits one again. */
  lemma NeverPendingAgain(run: seq<Sys>, acts: seq<Step>, i: nat, j: nat, id: string)
    requires IsRun(run, acts) && i <= j < |run|
    requires Rank(run[i], id) >= 2 && !Pending(run[i], id)
    ensures !Pending(run[j], id)
  {
    RankOnRun(run, acts, i, j, id);
    ReleasedStaysReleased(run, acts, i, j, id);
  }

  ghost predicate SafeStarts(run: seq<Sys>, acts: seq<Step>, id: string)
    requires |run| == |acts| + 1
  {
    forall k :: 0 <= k < |acts| ==> SafeStart(run[k], acts[k], id)
  }

  lemma AnnouncedThenSilent(run: seq<Sys>, acts: seq<Step>, i: nat, j: nat, id: string)
    requires IsRun(run, acts) && SafeStarts(run, acts, id) && i < j < |acts|
    requires Notifies(run[i], acts[i], id)
    ensures !Notifies(run[j], acts[j], id)
  {
    InvOnRun(run, acts, i);
    InvOnRun(run, acts, j);
    assert SafeStart(run[i], acts[i], id) && SafeStart(run[j], acts[j], id);
    EndsExactly(run[i], acts[i], id);
    EndsExactly(run[j], acts[j], id);
    PendingIsClaimed(run[i], id);
    RankOnRun(run, acts, i, i + 1, id);
    NeverPendingAgain(run, acts, i + 1, j, id);
  }

  ghost predicate AnnouncedOnce(run: seq<Sys>, acts: seq<Step>, id: string)
    requires |run| == |acts| + 1
  {
    forall i, j | 0 <= i < |acts| && 0 <= j < |acts| && Notifies(run[i], acts[i], id) && Notifies(run[j], acts[j], id) ::
      i == j
  }

  /**
   * The operator hears of the end of a job at most once, from the hook or from a startup card, however many
   * relays there are, if no startup finds the job running in the hands of another relay.
   */
  lemma AtMostOnceWithSafeStarts(run: seq<Sys>, acts: seq<Step>, id: string)
    requires IsRun(run, acts) && SafeStarts(run, acts, id)
    ensures AnnouncedOnce(run, acts, id)
  {
    forall i, j | 0 <= i < |acts| && 0 <= j < |acts| && Notifies(run[i], acts[i], id) && Notifies(run[j], acts[j], id)
      ensures i == j
    {
      if i < j {
        AnnouncedThenSilent(run, acts, i, j, id);
      } else if j < i {
        AnnouncedThenSilent(run, acts, j, i, id);
      }
    }
  }

  lemma OneRelayStartsSafely(run: seq<Sys>, acts: seq<Step>, id: string)
    requires IsRun(run, acts) && OneRelayAtATime(run, acts)
    ensures SafeStarts(run, acts, id)
  {
  }

  /** In particular with one relay at a time. */
  lemma NotifiedAtMostOnce(run: seq<Sys>, acts: seq<Step>, id: string)
    requires IsRun(run, acts) && OneRelayAtATime(run, acts)
    ensures AnnouncedOnce(run, acts, id)
  {
    OneRelayStartsSafely(run, acts, id);
    AtMostOnceWithSafeStarts(run, acts, id);
  }

  ghost predicate Notified(run: seq<Sys>, acts: seq<Step>, i: nat, id: string)
    requires |run| == |acts| + 1 && i <= |acts|
  {
    exists k :: 0 <= k < i && Notifies(run[k], acts[k], id)
  }

  ghost predicate Lost(run: seq<Sys>, acts: seq<Step>, i: nat, id: string)
    requires |run| == |acts| + 1 && i <= |acts|
  {
    exists k :: 0 <= k < i && Loses(run[k], acts[k], id)
  }

  /** Before a job is claimed it is neither announced nor lost. */
  lemma NothingBeforeTheClaim(run: seq<Sys>, acts: seq<Step>, c: nat, id: string)
    requires IsRun(run, acts) && SafeStarts(run, acts, id) && c < |acts| && Claims(acts[c], id)
    ensures Pending(run[c + 1], id) && !Notified(run, acts, c + 1, id) && !Lost(run, acts, c + 1, id)
  {
    InvOnRun(run, acts, c);
    ClaimsExactly(run[c], acts[c], id);
    forall k | 0 <= k <= c ensures !Notifies(run[k], acts[k], id) && !Loses(run[k], acts[k], id) {
      InvOnRun(run, acts, k);
      RankOnRun(run, acts, k, c, id);
      assert SafeStart(run[k], acts[k], id);
      EndsExactly(run[k], acts[k], id);
      if Pending(run[k], id) {
        PendingIsClaimed(run[k], id);
      }
    }
  }

  lemma OneMoreStep(run: seq<Sys>, acts: seq<Step>, i: nat, id: string)
    requires |run| == |acts| + 1 && 0 < i <= |acts|
    ensures Notified(run, acts, i, id) <==> Notified(run, acts, i - 1, id) || Notifies(run[i - 1], acts[i - 1], id)
    ensures Lost(run, acts, i, id) <==> Lost(run, acts, i - 1, id) || Loses(run[i - 1], acts[i - 1], id)
  {
  }

  /** What one step does to a claimed job, seen from the run. */
  lemma StepEnds(run: seq<Sys>, acts: seq<Step>, c: nat, k: nat, id: string)
    requires IsRun(run, acts) && SafeStarts(run, acts, id) && c < k < |acts| && Claims(acts[c], id)
    ensures Notifies(run[k], acts[k], id) || Loses(run[k], acts[k], id) <==>
              Pending(run[k], id) && !Pending(run[k + 1], id)
    ensures !(Notifies(run[k], acts[k], id) && Loses(run[k], acts[k], id))
    ensures !Pending(run[k], id) ==> !Pending(run[k + 1], id)
  {
    InvOnRun(run, acts, k);
    assert SafeStart(run[k], acts[k], id);
    EndsExactly(run[k], acts[k], id);
    if !Pending(run[k], id) {
      InvOnRun(run, acts, c);
      ClaimsExactly(run[c], acts[c], id);
      RankOnRun(run, acts, c + 1, k, id);
      NeverPendingAgain(run, acts, k, k + 1, id);
    }
  }

  /** Before `i` the job was announced or lost if and only if nothing is to come any more, and never both. */
  ghost predicate Settled(run: seq<Sys>, acts: seq<Step>, i: nat, id: string)
    requires |run| == |acts| + 1 && i <= |acts|
  {
    && (Notified(run, acts, i, id) || Lost(run, acts, i, id) <==> !Pending(run[i], id))
    && !(Notified(run, acts, i, id) && Lost(run, acts, i, id))
  }

  lemma SettledStep(run: seq<Sys>, acts: seq<Step>, c: nat, i: nat, id: string)
    requires IsRun(run, acts) && SafeStarts(run, acts, id) && c + 1 < i < |run| && Claims(acts[c], id)
    requires Settled(run, acts, i - 1, id)
    ensures Settled(run, acts, i, id)
  {
    StepEnds(run, acts, c, i - 1, id);
    OneMoreStep(run, acts, i, id);
  }

  /** Once nothing is to come for a claimed job, it has been announced if and only if it was not lost. */
  lemma {:induction false} NotifiedUnlessLost(run: seq<Sys>, acts: seq<Step>, c: nat, i: nat, id: string)
    requires IsRun(run, acts) && SafeStarts(run, acts, id) && c < i < |run| && Claims(acts[c], id)
    ensures Settled(run, acts, i, id)
    decreases i
  {
    if i == c + 1 {
      NothingBeforeTheClaim(run, acts, c, id);
    } else {
      NotifiedUnlessLost(run, acts, c, i - 1, id);
      SettledStep(run, acts, c, i, id);
    }
  }
}

/** What holds over every run, whatever the interleaving of relays, CLI processes, crashes and prunes. */
module JobSafety {
  import opened Options
  import opened JobTypes
  import opened JobTable
  import opened JobStore
  import opened JobProtocol

  /** The invariant holds in every state of every run. */
  lemma {:induction false} InvOnRun(run: seq<Sys>, acts: seq<Step>, i: nat)
    requires IsRun(run, acts) && i < |run|
    ensures Inv(run[i])
  {
    if i > 0 {
      InvOnRun(run, acts, i - 1);
      InvStep(run[i - 1], acts[i - 1]);
    }
  }

  /** Every row of every reachable table has the columns of its status. */
  lemma RowShapeOnRun(run: seq<Sys>, acts: seq<Step>, i: nat, id: string)
    requires IsRun(run, acts) && i < |run| && id in run[i].table
    ensures RowShape(run[i].table[id])
  {
    InvOnRun(run, acts, i);
  }

  /** With a monotone clock every reachable row has created <= started <= completed. */
  lemma {:induction false} TimesOnRun(run: seq<Sys>, acts: seq<Step>, i: nat)
    requires IsRun(run, acts) && i < |run|
    requires forall k :: 0 <= k < |acts| ==> ClockForward(run[k], acts[k])
    ensures TimesOk(run[i])
  {
    if i > 0 {
      TimesOnRun(run, acts, i - 1);
      InvOnRun(run, acts, i - 1);
      TimesStep(run[i - 1], acts[i - 1]);
    }
  }

  lemma {:induction false} RankOnRun(run: seq<Sys>, acts: seq<Step>, i: nat, j: nat, id: string)
    requires IsRun(run, acts) && i <= j < |run|
    ensures Rank(run[i], id) <= Rank(run[j], id)
    ensures Rank(run[i], id) == Rank(run[j], id) && id in run[i].table ==>
              id in run[j].table && run[j].table[id] == run[i].table[id]
    decreases j
  {
    if i < j {
      RankOnRun(run, acts, i, j - 1, id);
      InvOnRun(run, acts, j - 1);
      RankNeverFalls(run[j - 1], acts[j - 1], id);
    }
  }

  /** No two claims on a run ever take the same job. */
  lemma ClaimedAtMostOnce(run: seq<Sys>, acts: seq<Step>, i: nat, j: nat, id: string)
    requires IsRun(run, acts) && i < |acts| && j < |acts|
    requires Claims(acts[i], id) && Claims(acts[j], id)
    ensures i == j
  {
    InvOnRun(run, acts, i);
    InvOnRun(run, acts, j);
    ClaimsExactly(run[i], acts[i], id);
    ClaimsExactly(run[j], acts[j], id);
    if i < j {
      RankOnRun(run, acts, i + 1, j, id);
    } else if j < i {
      RankOnRun(run, acts, j + 1, i, id);
    }
  }

  /** At most one complete, cancel or interrupt call on a run reports a transition of a given job. */
  lemma ReportedAtMostOnce(run: seq<Sys>, acts: seq<Step>, i: nat, j: nat, id: string)
    requires IsRun(run, acts) && i < |acts| && j < |acts|
    requires Reports(run[i], acts[i], id) && Reports(run[j], acts[j], id)
    ensures i == j
  {
    InvOnRun(run, acts, i);
    InvOnRun(run, acts, j);
    ReportsExactly(run[i], acts[i], id);
    ReportsExactly(run[j], acts[j], id);
    if i < j {
      RankOnRun(run, acts, i + 1, j, id);
    } else if j < i {
      RankOnRun(run, acts, j + 1, i, id);
    }
  }

  /** From the reported transition on, the row never changes again until it is pruned, and then it stays away. */
  lemma TerminalRowsAreFrozen(run: seq<Sys>, acts: seq<Step>, i: nat, j: nat, id: string)
    requires IsRun(run, acts) && i < |acts| && i < j < |run|
    requires Reports(run[i], acts[i], id)
    ensures id in run[i + 1].table && IsTerminal(run[i + 1].table[id].status)
    ensures id in run[j].table || id in run[j].pruned
    ensures id in run[j].table ==> run[j].table[id] == run[i + 1].table[id]
  {
    InvOnRun(run, acts, i);
    InvOnRun(run, acts, j);
    ReportsExactly(run[i], acts[i], id);
    RankOnRun(run, acts, i + 1, j, id);
  }

  lemma TerminalBefore(run: seq<Sys>, acts: seq<Step>, j: nat, id: string)
    requires IsRun(run, acts) && j < |acts|
    requires Rank(run[j + 1], id) == 3
    ensures Reports(run[j], acts[j], id) || (Rank(run[j], id) == 3 && run[j].table[id] == run[j + 1].table[id])
  {
  }

  /** A status that reads terminal was reported by exactly one call before. */
  lemma {:induction false} TerminalWasReported(run: seq<Sys>, acts: seq<Step>, j: nat, id: string) returns (i: nat)
    requires IsRun(run, acts) && j < |run|
    requires id in run[j].table && IsTerminal(run[j].table[id].status)
    ensures i < j && Reports(run[i], acts[i], id)
    ensures id in run[i + 1].table && run[i + 1].table[id] == run[j].table[id]
  {
    assert run[0].table == map[];
    TerminalBefore(run, acts, j - 1, id);
    if Reports(run[j - 1], acts[j - 1], id) {
      i := j - 1;
    } else {
      i := TerminalWasReported(run, acts, j - 1, id);
    }
  }

  /** No record reaches the completion hook before it is terminal. */
  lemma HookGetsTerminal(run: seq<Sys>, acts: seq<Step>, i: nat)
    requires IsRun(run, acts) && i < |acts| && HookCall(run[i], acts[i]).Some?
    ensures IsTerminal(HookCall(run[i], acts[i]).value.status)
    ensures Lookup(run[i].table, HookCall(run[i], acts[i]).value.id) == HookCall(run[i], acts[i])
  {
    InvOnRun(run, acts, i);
    HookStep(run[i], acts[i]);
  }

  lemma {:induction false} ReleasedStaysReleased(run: seq<Sys>, acts: seq<Step>, i: nat, j: nat, id: string)
    requires IsRun(run, acts) && i <= j < |run|
    requires Rank(run[i], id) >= 2 && !HeldSomewhere(run[i], id)
    ensures Rank(run[j], id) >= 2 && !HeldSomewhere(run[j], id)
    decreases j
  {
    if i < j {
      ReleasedStaysReleased(run, acts, i, j - 1, id);
      InvOnRun(run, acts, j - 1);
      ReleaseIsFinal(run[j - 1], acts[j - 1], id);
    }
  }

  lemma HookOnRun(run: seq<Sys>, acts: seq<Step>, i: nat, id: string)
    requires IsRun(run, acts) && i < |acts|
    requires HookCall(run[i], acts[i]).Some? && HookCall(run[i], acts[i]).value.id == id
    ensures HeldSomewhere(run[i], id) && !HeldSomewhere(run[i + 1], id) && Rank(run[i + 1], id) >= 2
  {
    InvOnRun(run, acts, i);
    HookStep(run[i], acts[i]);
  }

  /** Of two steps in order, the second cannot call the hook for the job of the first. */
  lemma HookNotRepeated(run: seq<Sys>, acts: seq<Step>, i: nat, j: nat)
    requires IsRun(run, acts) && i < j < |acts|
    requires HookCall(run[i], acts[i]).Some? && HookCall(run[j], acts[j]).Some?
    ensures HookCall(run[i], acts[i]).value.id != HookCall(run[j], acts[j]).value.id
  {
    var id := HookCall(run[i], acts[i]).value.id;
    HookOnRun(run, acts, i, id);
    if HookCall(run[j], acts[j]).value.id == id {
      HookOnRun(run, acts, j, id);
    }
    ReleasedStaysReleased(run, acts, i + 1, j, id);
  }

  /** The completion hook fires at most once per job, on all paths. */
  lemma HookAtMostOnce(run: seq<Sys>, acts: seq<Step>, i: nat, j: nat)
    requires IsRun(run, acts) && i < |acts| && j < |acts|
    requires HookCall(run[i], acts[i]).Some? && HookCall(run[j], acts[j]).Some?
    requires HookCall(run[i], acts[i]).value.id == HookCall(run[j], acts[j]).value.id
    ensures i == j
  {
    if i < j {
      HookNotRepeated(run, acts, i, j);
    } else if j < i {
      HookNotRepeated(run, acts, j, i);
    }
  }

  /** Unless its process dies, a relay does not lose a job: it still holds it, or the hook gets it, or it was pruned. */
  lemma HeldJobIsAccountedFor(s: Sys, a: Step, r: nat, id: string)
    requires Inv(s) && Enabled(s, a) && a != Crash(r)
    requires r in s.relays && id in Held(s.relays[r])
    ensures (r in Apply(s, a).relays && id in Held(Apply(s, a).relays[r]))
         || id in Apply(s, a).pruned
         || (HookCall(s, a).Some? && HookCall(s, a).value.id == id)
  {
    assert Rank(s, id) >= 2;
    RankNeverFalls(s, a, id);
    if !(r in Apply(s, a).relays && id in Held(Apply(s, a).relays[r])) {
      LeavesTheHands(s, a, r, id);
    }
  }

  /** A relay lets go of a job in two places only. */
  lemma LeavesTheHands(s: Sys, a: Step, r: nat, id: string)
    requires Enabled(s, a) && a != Crash(r)
    requires r in s.relays && id in Held(s.relays[r])
    requires !(r in Apply(s, a).relays && id in Held(Apply(s, a).relays[r]))
    ensures s.relays[r].Live?
    ensures (a.Settle? && a.id == id && !(id in s.table && s.table[id].status == Running))
         || (a == Reread(r) && s.relays[r].phase == Written(id))
  {
  }

  ghost predicate HookFired(run: seq<Sys>, acts: seq<Step>, from: nat, to: nat, id: string)
    requires |run| == |acts| + 1 && to <= |acts|
  {
    exists k :: from <= k < to && HookCall(run[k], acts[k]).Some? && HookCall(run[k], acts[k]).value.id == id
  }

  /** The partner of `HookAtMostOnce`: a claimed job is in hand, or has reached the hook, or is gone from the table. */
  lemma {:induction false} ClaimedJobIsAccountedFor(run: seq<Sys>, acts: seq<Step>, c: nat, i: nat, id: string)
    requires IsRun(run, acts) && c < i < |run| && Claims(acts[c], id)
    requires forall k :: c < k < i ==> acts[k] != Crash(acts[c].relay)
    ensures (acts[c].relay in run[i].relays && id in Held(run[i].relays[acts[c].relay]))
         || id in run[i].pruned
         || HookFired(run, acts, c, i, id)
    decreases i
  {
    var r := acts[c].relay;
    if i == c + 1 {
      assert id in IdSet(acts[c].ids);
    } else {
      ClaimedJobIsAccountedFor(run, acts, c, i - 1, id);
      InvOnRun(run, acts, i - 1);
      if r in run[i - 1].relays && id in Held(run[i - 1].relays[r]) {
        HeldJobIsAccountedFor(run[i - 1], acts[i - 1], r, id);
      } else if id in run[i - 1].pruned {
        RankNeverFalls(run[i - 1], acts[i - 1], id);
      }
    }
  }

  /**
   * A terminal row that one statement of a cancel or complete call leaves is what the read-back of the same
   * call finds, however much later it comes, or it finds nothing because the row was pruned.
   */
  lemma ReadBackIsStable(run: seq<Sys>, acts: seq<Step>, i: nat, j: nat, id: string)
    requires IsRun(run, acts) && i <= j < |run|
    requires id in run[i].table && IsTerminal(run[i].table[id].status)
    ensures Lookup(run[j].table, id) == Lookup(run[i].table, id)
         || (Lookup(run[j].table, id) == None && id in run[j].pruned)
  {
    RankOnRun(run, acts, i, j, id);
    InvOnRun(run, acts, j);
  }

  /** Whatever an executor returned, a cancellation that landed first stays: the terminal write is a no-op. */
  lemma CancellationWins(run: seq<Sys>, acts: seq<Step>, i: nat, j: nat, id: string)
    requires IsRun(run, acts) && i < j < |run|
    requires acts[i].Cancel? && acts[i].id == id && Reports(run[i], acts[i], id)
    requires id in run[j].table
    ensures run[j].table[id].status == Cancelled && run[j].table[id].cancelledAt == Some(acts[i].nowMs)
    ensures forall k :: i < k < |acts| ==> !Reports(run[k], acts[k], id)
  {
    TerminalRowsAreFrozen(run, acts, i, j, id);
    forall k | i < k < |acts| ensures !Reports(run[k], acts[k], id) {
      if Reports(run[k], acts[k], id) {
        ReportedAtMostOnce(run, acts, i, k, id);
      }
    }
  }

  /** created = active + terminal + pruned, in every reachable state. */
  lemma Conservation(run: seq<Sys>, acts: seq<Step>, i: nat)
    requires IsRun(run, acts) && i < |run|
    ensures |run[i].ever| == |ActiveIds(run[i].table)| + |TerminalIds(run[i].table)| + |run[i].pruned|
  {
    InvOnRun(run, acts, i);
    RowsPartition(run[i].table);
    assert |run[i].table.Keys| == |run[i].table|;
  }

  /** No runner ever has more jobs in flight than its own maximum. */
  lemma CapacityOnRun(run: seq<Sys>, acts: seq<Step>, i: nat, r: nat)
    requires IsRun(run, acts) && i < |run| && IsLive(run[i], r)
    ensures |run[i].relays[r].inFlight| <= run[i].relays[r].max
  {
    InvOnRun(run, acts, i);
    assert RelayOk(run[i].table, run[i].relays[r]);
  }
}

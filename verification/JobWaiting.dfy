/** How long a queued job can wait: polls serve the queue in age order and skip nobody. */
module JobWaiting {
  import opened JobTypes
  import opened JobTable
  import opened JobProtocol
  import opened JobSafety

  /** The other queued jobs that are not younger than `id`. */
  function Ahead(t: Table, id: string): set<string>
    requires id in t
  {
    set other | other in t && other != id && t[other].status == Queued && t[other].createdAt <= t[id].createdAt
  }

  /** The jobs a step may claim: the free capacity of a poll, clamped to 25. */
  function SlotsOffered(s: Sys, a: Step): nat {
    if a.Tick? && IsLive(s, a.relay) && HasSlot(s.relays[a.relay]) then SlotLimit(s.relays[a.relay]) else 0
  }

  function TotalSlots(run: seq<Sys>, acts: seq<Step>, i: nat, j: nat): nat
    requires |run| == |acts| + 1 && i <= j <= |acts|
    decreases j
  {
    if i == j then 0 else TotalSlots(run, acts, i, j - 1) + SlotsOffered(run[j - 1], acts[j - 1])
  }

  function TicksWithFreeSlot(run: seq<Sys>, acts: seq<Step>, i: nat, j: nat): nat
    requires |run| == |acts| + 1 && i <= j <= |acts|
    decreases j
  {
    if i == j then 0
    else TicksWithFreeSlot(run, acts, i, j - 1) + if SlotsOffered(run[j - 1], acts[j - 1]) > 0 then 1 else 0
  }

  lemma {:induction false} EachTickOffersASlot(run: seq<Sys>, acts: seq<Step>, i: nat, j: nat)
    requires |run| == |acts| + 1 && i <= j <= |acts|
    ensures TicksWithFreeSlot(run, acts, i, j) <= TotalSlots(run, acts, i, j)
    decreases j
  {
    if i < j {
      EachTickOffersASlot(run, acts, i, j - 1);
    }
  }

  lemma AheadAfterClaim(t: Table, ids: seq<string>, nowMs: int, id: string)
    requires id in t && id !in ids && IdSet(ids) <= Ahead(t, id)
    ensures Ahead(ClaimedTable(t, ids, nowMs), id) == Ahead(t, id) - IdSet(ids)
  {
  }

  /** A poll that leaves `id` queued was full, and took only jobs ahead of `id`. */
  lemma TickShortensTheQueue(s: Sys, a: Step, id: string)
    requires IdsOk(s) && Enabled(s, a) && a.Tick? && HasSlot(s.relays[a.relay])
    requires id in s.table && s.table[id].status == Queued && id !in a.ids
    ensures |Ahead(Apply(s, a).table, id)| + SlotsOffered(s, a) == |Ahead(s.table, id)|
  {
    var relay := s.relays[a.relay];
    ClaimExact(s.table, relay.max - |relay.inFlight|, a.ids, a.nowMs);
    assert id in QueuedIds(Apply(s, a).table);
    assert IdSet(a.ids) <= Ahead(s.table, id) by {
      forall other | other in a.ids ensures other in Ahead(s.table, id) {
        assert other in QueuedIds(s.table);
      }
    }
    AheadAfterClaim(s.table, a.ids, a.nowMs, id);
    DistinctCount(a.ids);
    SubsetCount(IdSet(a.ids), Ahead(s.table, id));
  }

  /** No other step puts a job ahead of `id`. */
  lemma NobodyJumpsTheQueue(s: Sys, a: Step, id: string)
    requires IdsOk(s) && Enabled(s, a) && !(a.Tick? && HasSlot(s.relays[a.relay]))
    requires Rank(s, id) == 1 && Rank(Apply(s, a), id) == 1
    requires a.Create? ==> s.table[id].createdAt < a.nowMs
    ensures Ahead(Apply(s, a).table, id) <= Ahead(s.table, id)
  {
  }

  lemma WaitStep(s: Sys, a: Step, id: string)
    requires IdsOk(s) && Enabled(s, a)
    requires Rank(s, id) == 1 && Rank(Apply(s, a), id) == 1
    requires a.Create? ==> s.table[id].createdAt < a.nowMs
    ensures |Ahead(Apply(s, a).table, id)| + SlotsOffered(s, a) <= |Ahead(s.table, id)|
  {
    if a.Tick? && HasSlot(s.relays[a.relay]) {
      ClaimsExactly(s, a, id);
      TickShortensTheQueue(s, a, id);
    } else {
      NobodyJumpsTheQueue(s, a, id);
      SubsetCount(Ahead(Apply(s, a).table, id), Ahead(s.table, id));
    }
  }

  /** Jobs created while `id` waits are strictly younger. */
  ghost predicate LaterJobsAreYounger(acts: seq<Step>, i: nat, j: nat, createdAt: int)
    requires i <= j <= |acts|
  {
    forall k :: i <= k < j && acts[k].Create? ==> createdAt < acts[k].nowMs
  }

  lemma WaitOnRun(run: seq<Sys>, acts: seq<Step>, k: nat, id: string)
    requires IsRun(run, acts) && k < |acts|
    requires Rank(run[k], id) == 1 && Rank(run[k + 1], id) == 1
    requires acts[k].Create? ==> run[k].table[id].createdAt < acts[k].nowMs
    ensures |Ahead(run[k + 1].table, id)| + SlotsOffered(run[k], acts[k]) <= |Ahead(run[k].table, id)|
  {
    InvOnRun(run, acts, k);
    WaitStep(run[k], acts[k], id);
  }

  lemma {:induction false} SumOfSlots(run: seq<Sys>, acts: seq<Step>, i: nat, j: nat, id: string)
    requires |run| == |acts| + 1 && i <= j <= |acts|
    requires forall k :: i <= k <= j ==> id in run[k].table
    requires forall k :: i <= k < j ==>
                           |Ahead(run[k + 1].table, id)| + SlotsOffered(run[k], acts[k]) <= |Ahead(run[k].table, id)|
    ensures TotalSlots(run, acts, i, j) + |Ahead(run[j].table, id)| <= |Ahead(run[i].table, id)|
    decreases j
  {
    if i < j {
      SumOfSlots(run, acts, i, j - 1, id);
      assert |Ahead(run[j - 1 + 1].table, id)| + SlotsOffered(run[j - 1], acts[j - 1]) <= |Ahead(run[j - 1].table, id)|;
    }
  }

  /** While `id` stays queued, every slot offered by any poll is used up by a job ahead of it. */
  lemma SlotsWhileWaiting(run: seq<Sys>, acts: seq<Step>, i: nat, j: nat, id: string)
    requires IsRun(run, acts) && i <= j < |run|
    requires Rank(run[i], id) == 1 && Rank(run[j], id) == 1
    requires LaterJobsAreYounger(acts, i, j, run[i].table[id].createdAt)
    ensures TotalSlots(run, acts, i, j) + |Ahead(run[j].table, id)| <= |Ahead(run[i].table, id)|
  {
    forall k | i <= k <= j ensures Rank(run[k], id) == 1 && run[k].table[id] == run[i].table[id] {
      RankOnRun(run, acts, i, k, id);
      RankOnRun(run, acts, k, j, id);
    }
    forall k | i <= k < j
      ensures |Ahead(run[k + 1].table, id)| + SlotsOffered(run[k], acts[k]) <= |Ahead(run[k].table, id)|
    {
      assert Rank(run[k], id) == 1 && Rank(run[k + 1], id) == 1;
      WaitOnRun(run, acts, k, id);
    }
    SumOfSlots(run, acts, i, j, id);
  }

  lemma QueuedStep(s: Sys, a: Step, id: string)
    requires IdsOk(s) && Enabled(s, a) && Rank(s, id) == 1 && Rank(Apply(s, a), id) > 1
    ensures Claims(a, id) || (a.Cancel? && Reports(s, a, id))
  {
  }

  lemma {:induction false} LastQueuedState(run: seq<Sys>, i: nat, j: nat, id: string) returns (k: nat)
    requires i <= j < |run|
    requires forall m :: i <= m <= j ==> Rank(run[m], id) >= 1
    requires Rank(run[i], id) == 1 && Rank(run[j], id) > 1
    ensures i <= k < j && Rank(run[k], id) == 1 && Rank(run[k + 1], id) > 1
    decreases j
  {
    if Rank(run[j - 1], id) > 1 {
      k := LastQueuedState(run, i, j - 1, id);
    } else {
      k := j - 1;
    }
  }

  /** The step at which a job stops being queued is a claim or a cancellation. */
  lemma LeavesTheQueue(run: seq<Sys>, acts: seq<Step>, i: nat, j: nat, id: string) returns (k: nat)
    requires IsRun(run, acts) && i <= j < |run|
    requires Rank(run[i], id) == 1 && Rank(run[j], id) > 1
    ensures i <= k < j && (Claims(acts[k], id) || (acts[k].Cancel? && Reports(run[k], acts[k], id)))
  {
    forall m | i <= m <= j ensures Rank(run[m], id) >= 1 {
      RankOnRun(run, acts, i, m, id);
    }
    k := LastQueuedState(run, i, j, id);
    InvOnRun(run, acts, k);
    QueuedStep(run[k], acts[k], id);
  }

  /**
   * A job with k queued jobs not younger than it has been claimed or cancelled once polls, of any
   * relay, have found a free slot k + 1 times.
   */
  lemma BoundedWait(run: seq<Sys>, acts: seq<Step>, i: nat, j: nat, id: string)
    requires IsRun(run, acts) && i <= j < |run|
    requires id in run[i].table && run[i].table[id].status == Queued
    requires LaterJobsAreYounger(acts, i, j, run[i].table[id].createdAt)
    requires TicksWithFreeSlot(run, acts, i, j) >= |Ahead(run[i].table, id)| + 1
    ensures exists k :: i <= k < j && (Claims(acts[k], id) || (acts[k].Cancel? && Reports(run[k], acts[k], id)))
  {
    EachTickOffersASlot(run, acts, i, j);
    RankOnRun(run, acts, i, j, id);
    if Rank(run[j], id) == 1 {
      SlotsWhileWaiting(run, acts, i, j, id);
    } else {
      var k := LeavesTheQueue(run, acts, i, j, id);
    }
  }
}

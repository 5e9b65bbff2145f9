/**
 * The effect of each SQL statement of the job store on the whole table,
 * and what those effects promise.
 */
module JobTable {
  import opened Options
  import opened JobTypes

  // ----- Well-formed tables

  /** Every row sits under its own primary key. */
  ghost predicate Keyed(t: Table) {
    forall id :: id in t ==> t[id].id == id
  }

  /** The UNIQUE constraint on `short_id`. */
  ghost predicate UniqueShortIds(t: Table) {
    forall a, b :: a in t && b in t && t[a].shortId == t[b].shortId ==> a == b
  }

  ghost predicate WellFormed(t: Table) {
    Keyed(t) && UniqueShortIds(t)
  }

  function QueuedIds(t: Table): set<string> {
    set id | id in t && t[id].status == Queued
  }

  function RunningIds(t: Table): set<string> {
    set id | id in t && t[id].status == Running
  }

  function ActiveIds(t: Table): set<string> {
    set id | id in t && IsActive(t[id].status)
  }

  function TerminalIds(t: Table): set<string> {
    set id | id in t && IsTerminal(t[id].status)
  }

  // ----- INSERT

  datatype CreateResult =
    | Created(job: Job) | TitleRequired | PayloadRefused | IdTaken | ShortIdExhausted

  const MAX_SHORT_ID_ATTEMPTS := 10

  function FreshJob(id: string, shortId: string, spec: JobSpec, nowMs: int): Job {
    Job(id, shortId, spec, Queued, None, None, nowMs, None, None, None)
  }

  function ShortIds(t: Table): set<string> {
    set id | id in t :: t[id].shortId
  }

  /** The first candidate that no row uses yet. */
  function FirstFree(used: set<string>, candidates: seq<string>): Option<string> {
    if candidates == [] then None
    else if candidates[0] !in used then Some(candidates[0])
    else FirstFree(used, candidates[1..])
  }

  /** The retry fails exactly when every candidate collides; otherwise it takes the earliest that does not, at `k`. */
  lemma {:induction false} FirstFreeIsFirst(used: set<string>, candidates: seq<string>) returns (k: nat)
    ensures k <= |candidates| && forall i :: 0 <= i < k ==> candidates[i] in used
    ensures FirstFree(used, candidates) == if k < |candidates| then Some(candidates[k]) else None
    ensures k < |candidates| ==> candidates[k] !in used
  {
    if candidates == [] || candidates[0] !in used {
      k := 0;
    } else {
      var rest := FirstFreeIsFirst(used, candidates[1..]);
      k := rest + 1;
    }
  }

  function CreateOutcome(t: Table, id: string, shortIds: seq<string>, spec: JobSpec, nowMs: int): CreateResult {
    if spec.title == "" then TitleRequired
    else if spec.payload == None then PayloadRefused
    else if shortIds == [] then ShortIdExhausted
    else if id in t then IdTaken
    else match FirstFree(ShortIds(t), shortIds)
      case Some(shortId) => Created(FreshJob(id, shortId, spec, nowMs))
      case None => ShortIdExhausted
  }

  /** A job is created exactly when it has a title, a good payload, a new id, and one of its short ids is free. */
  lemma CreatedExactly(t: Table, id: string, shortIds: seq<string>, spec: JobSpec, nowMs: int)
    ensures CreateOutcome(t, id, shortIds, spec, nowMs).Created? <==>
            spec.title != "" && spec.payload.Some? && id !in t
            && exists k :: 0 <= k < |shortIds| && shortIds[k] !in ShortIds(t)
    ensures WellFormed(t) ==> WellFormed(CreatedTable(t, CreateOutcome(t, id, shortIds, spec, nowMs)))
  {
    var k := FirstFreeIsFirst(ShortIds(t), shortIds);
    assert forall a :: a in t ==> t[a].shortId in ShortIds(t);
  }

  /** Each refusal has its own reason, and they are looked at in this order. */
  lemma RefusedExactly(t: Table, id: string, shortIds: seq<string>, spec: JobSpec, nowMs: int)
    requires shortIds != []
    ensures var r := CreateOutcome(t, id, shortIds, spec, nowMs);
            && (r == TitleRequired <==> spec.title == "")
            && (r == PayloadRefused <==> spec.title != "" && spec.payload == None)
            && (r == IdTaken <==> spec.title != "" && spec.payload.Some? && id in t)
            && (r == ShortIdExhausted <==> spec.title != "" && spec.payload.Some? && id !in t
                                           && forall k :: 0 <= k < |shortIds| ==> shortIds[k] in ShortIds(t))
  {
    var k := FirstFreeIsFirst(ShortIds(t), shortIds);
  }

  /** Attempts that all collided leave the call where it started, with the attempts that remain. */
  lemma {:induction false} CreateResumes(
    t: Table, id: string, tried: seq<string>, left: seq<string>, spec: JobSpec, nowMs: int)
    requires left != [] && CreateOutcome(t, id, tried, spec, nowMs) == ShortIdExhausted
    ensures CreateOutcome(t, id, tried + left, spec, nowMs) == CreateOutcome(t, id, left, spec, nowMs)
  {
    if tried == [] {
      assert tried + left == left;
    } else {
      assert tried[0] in ShortIds(t);
      assert (tried + left)[0] == tried[0] && (tried + left)[1..] == tried[1..] + left;
      CreateResumes(t, id, tried[1..], left, spec, nowMs);
    }
  }

  function CreatedTable(t: Table, r: CreateResult): Table {
    if r.Created? then t[r.job.id := r.job] else t
  }

  // ----- Claim: SELECT ... ORDER BY created_at ASC LIMIT ?, then one UPDATE per row

  function EffectiveLimit(limit: int): (r: nat)
    ensures 1 <= r <= 25
    ensures 1 <= limit <= 25 ==> r == limit
    ensures limit > 25 ==> r == 25
  {
    var capped := if limit < 25 then limit else 25;
    if capped < 1 then 1 else capped
  }

  function IdSet(ids: seq<string>): set<string> {
    set id | id in ids
  }

  lemma OneMoreId(ids: seq<string>, k: nat)
    requires k < |ids|
    ensures IdSet(ids[..k + 1]) == IdSet(ids[..k]) + {ids[k]}
  {
    assert ids[..k + 1] == ids[..k] + [ids[k]];
  }

  lemma {:induction false} IdSetCount(ids: seq<string>)
    ensures |IdSet(ids)| <= |ids|
  {
    if ids == [] {
      assert IdSet(ids) == {};
    } else {
      var last := |ids| - 1;
      IdSetCount(ids[..last]);
      OneMoreId(ids, last);
      assert ids[..last + 1] == ids;
    }
  }

  ghost predicate Distinct(ids: seq<string>) {
    forall i, j :: 0 <= i < j < |ids| ==> ids[i] != ids[j]
  }

  /**
   * `ids` is a possible answer to the claim query: SQL leaves the order of equal
   * `created_at` values open, so several answers may qualify.
   */
  ghost predicate OldestQueued(t: Table, limit: nat, ids: seq<string>) {
    && Distinct(ids)
    && (forall id :: id in ids ==> id in QueuedIds(t))
    && |ids| == (if limit < |QueuedIds(t)| then limit else |QueuedIds(t)|)
    && (forall i, j :: 0 <= i < j < |ids| && ids[i] in t && ids[j] in t ==>
                         t[ids[i]].createdAt <= t[ids[j]].createdAt)
    && (forall a, b :: a in ids && b in QueuedIds(t) && b !in ids ==> t[a].createdAt <= t[b].createdAt)
  }

  /** `ids` are the oldest queued rows, in age order, and `rest` is what is still to be selected from. */
  ghost predicate OldestSoFar(t: Table, ids: seq<string>, rest: set<string>) {
    && Distinct(ids)
    && rest <= QueuedIds(t)
    && (forall id :: id in ids <==> id in QueuedIds(t) && id !in rest)
    && (forall i, j :: 0 <= i < j < |ids| && ids[i] in t && ids[j] in t ==> t[ids[i]].createdAt <= t[ids[j]].createdAt)
    && (forall a, b :: a in ids && a in t && b in rest ==> t[a].createdAt <= t[b].createdAt)
  }

  lemma OneMoreOldest(t: Table, ids: seq<string>, rest: set<string>, id: string)
    requires OldestSoFar(t, ids, rest) && id in rest
    requires forall other :: other in rest ==> t[id].createdAt <= t[other].createdAt
    ensures OldestSoFar(t, ids + [id], rest - {id})
  {
    var longer := ids + [id];
    assert forall i :: 0 <= i < |ids| ==> longer[i] in ids;
  }

  lemma SelectionComplete(t: Table, limit: nat, ids: seq<string>, rest: set<string>)
    requires OldestSoFar(t, ids, rest) && |ids| <= limit && (|ids| < limit ==> rest == {})
    ensures OldestQueued(t, limit, ids)
  {
    DistinctCount(ids);
    assert IdSet(ids) == QueuedIds(t) - rest;
    SubsetCount(rest, QueuedIds(t));
    SubsetCount(IdSet(ids), QueuedIds(t));
  }

  function ClaimedRow(j: Job, nowMs: int): Job {
    j.(status := Running, startedAt := Some(nowMs))
  }

  function ClaimedTable(t: Table, ids: seq<string>, nowMs: int): Table {
    map id | id in t :: if id in ids then ClaimedRow(t[id], nowMs) else t[id]
  }

  // ----- The other guarded statements

  function FinishedRow(j: Job, o: Outcome, atMs: int): Job {
    j.(status := if o.ok then Completed else Failed, result := o.result, error := o.error, completedAt := Some(atMs))
  }

  predicate Completes(t: Table, id: string) {
    id in t && t[id].status == Running
  }

  function CompletedTable(t: Table, id: string, o: Outcome, atMs: int): Table {
    if Completes(t, id) then t[id := FinishedRow(t[id], o, atMs)] else t
  }

  function CancelledRow(j: Job, nowMs: int): Job {
    j.(status := Cancelled, cancelledAt := Some(nowMs), completedAt := Some(nowMs))
  }

  predicate Cancels(t: Table, id: string) {
    id in t && IsActive(t[id].status)
  }

  function CancelledTable(t: Table, id: string, nowMs: int): Table {
    if Cancels(t, id) then t[id := CancelledRow(t[id], nowMs)] else t
  }

  function InterruptedRow(j: Job, nowMs: int, reason: string): Job {
    j.(status := Interrupted, error := Some(reason), completedAt := Some(nowMs))
  }

  function InterruptedRows(t: Table, ids: set<string>, nowMs: int, reason: string): Table {
    map id | id in t :: if id in ids then InterruptedRow(t[id], nowMs, reason) else t[id]
  }

  function InterruptedTable(t: Table, nowMs: int, reason: string): Table {
    InterruptedRows(t, RunningIds(t), nowMs, reason)
  }

  /** COALESCE(completed_at, cancelled_at, created_at) */
  function PruneAge(j: Job): int {
    if j.completedAt.Some? then j.completedAt.value
    else if j.cancelledAt.Some? then j.cancelledAt.value
    else j.createdAt
  }

  predicate Prunable(j: Job, cutoffMs: int) {
    IsTerminal(j.status) && PruneAge(j) < cutoffMs
  }

  function PrunedIds(t: Table, cutoffMs: int): set<string> {
    set id | id in t && Prunable(t[id], cutoffMs)
  }

  function PrunedTable(t: Table, cutoffMs: int): Table {
    t - PrunedIds(t, cutoffMs)
  }

  // ----- No statement but the INSERT touches the two key columns

  ghost predicate SameKeyColumns(t: Table, t': Table) {
    t'.Keys <= t.Keys && forall id :: id in t' ==> t'[id].id == t[id].id && t'[id].shortId == t[id].shortId
  }

  lemma KeyColumnsKept(t: Table, t': Table)
    requires WellFormed(t) && SameKeyColumns(t, t')
    ensures WellFormed(t')
  {
  }

  lemma ClaimOneMore(t: Table, ids: seq<string>, k: nat, nowMs: int)
    requires k < |ids| && Distinct(ids) && ids[k] in t
    ensures ids[k] in ClaimedTable(t, ids[..k], nowMs) && ClaimedTable(t, ids[..k], nowMs)[ids[k]] == t[ids[k]]
    ensures ClaimedTable(t, ids[..k], nowMs)[ids[k] := ClaimedRow(t[ids[k]], nowMs)]
         == ClaimedTable(t, ids[..k + 1], nowMs)
  {
  }

  lemma InterruptOneMore(t: Table, ids: seq<string>, k: nat, nowMs: int, reason: string)
    requires k < |ids| && Distinct(ids) && ids[k] in t
    ensures var part := InterruptedRows(t, IdSet(ids[..k]), nowMs, reason);
            && ids[k] in part && part[ids[k]] == t[ids[k]]
            && part[ids[k] := InterruptedRow(t[ids[k]], nowMs, reason)]
               == InterruptedRows(t, IdSet(ids[..k + 1]), nowMs, reason)
  {
  }

  // ----- Counting

  lemma {:induction false} DistinctCount(ids: seq<string>)
    requires Distinct(ids)
    ensures |IdSet(ids)| == |ids|
  {
    if ids == [] {
      assert IdSet(ids) == {};
    } else {
      var last := ids[|ids| - 1];
      var front := ids[..|ids| - 1];
      DistinctCount(front);
      assert IdSet(ids) == IdSet(front) + {last};
    }
  }

  lemma SubsetCount(a: set<string>, b: set<string>)
    requires a <= b
    ensures |b - a| == |b| - |a|
    ensures |a| == |b| ==> a == b
  {
  }

  lemma ClaimSets(t: Table, ids: seq<string>, nowMs: int)
    requires IdSet(ids) <= QueuedIds(t)
    ensures QueuedIds(ClaimedTable(t, ids, nowMs)) == QueuedIds(t) - IdSet(ids)
    ensures RunningIds(ClaimedTable(t, ids, nowMs)) == RunningIds(t) + IdSet(ids)
    ensures ActiveIds(ClaimedTable(t, ids, nowMs)) == ActiveIds(t)
  {
    assert forall id :: id in ids ==> id in QueuedIds(t);
  }

  lemma ClaimInOrder(t: Table, limit: nat, ids: seq<string>)
    requires OldestQueued(t, limit, ids)
    ensures |ids| <= limit
    ensures forall i, j :: 0 <= i < j < |ids| ==>
              ids[i] != ids[j] && ids[i] in t && ids[j] in t && t[ids[i]].createdAt <= t[ids[j]].createdAt
  {
    assert forall i :: 0 <= i < |ids| ==> ids[i] in ids && ids[i] in QueuedIds(t);
  }

  /**
   * The claim takes exactly min(clamped limit, queued count) rows, in age order,
   * none younger than a row it leaves queued, and touches no other row.
   */
  lemma ClaimExact(t: Table, limit: int, ids: seq<string>, nowMs: int)
    requires OldestQueued(t, EffectiveLimit(limit), ids)
    ensures |QueuedIds(ClaimedTable(t, ids, nowMs))| == |QueuedIds(t)| - |ids|
    ensures |ActiveIds(ClaimedTable(t, ids, nowMs))| == |ActiveIds(t)|
    ensures QueuedIds(ClaimedTable(t, ids, nowMs)) != {} ==> |ids| == EffectiveLimit(limit)
    ensures |ids| <= EffectiveLimit(limit)
    ensures forall i, j :: 0 <= i < j < |ids| ==>
              ids[i] != ids[j] && ids[i] in t && ids[j] in t && t[ids[i]].createdAt <= t[ids[j]].createdAt
    ensures forall a, b :: a in ids && b in QueuedIds(ClaimedTable(t, ids, nowMs)) ==> t[a].createdAt <= t[b].createdAt
    ensures forall id :: id in t && id !in ids ==> ClaimedTable(t, ids, nowMs)[id] == t[id]
  {
    ClaimInOrder(t, EffectiveLimit(limit), ids);
    assert IdSet(ids) <= QueuedIds(t);
    ClaimSets(t, ids, nowMs);
    DistinctCount(ids);
    SubsetCount(IdSet(ids), QueuedIds(t));
  }

  // How each statement moves the active and the terminal rows.

  lemma CompleteSets(t: Table, id: string, o: Outcome, atMs: int)
    requires Completes(t, id)
    ensures ActiveIds(CompletedTable(t, id, o, atMs)) == ActiveIds(t) - {id}
    ensures TerminalIds(CompletedTable(t, id, o, atMs)) == TerminalIds(t) + {id}
  {
  }

  lemma CancelSets(t: Table, id: string, nowMs: int)
    requires Cancels(t, id)
    ensures ActiveIds(CancelledTable(t, id, nowMs)) == ActiveIds(t) - {id}
    ensures TerminalIds(CancelledTable(t, id, nowMs)) == TerminalIds(t) + {id}
  {
  }

  lemma InterruptSets(t: Table, nowMs: int, reason: string)
    ensures ActiveIds(InterruptedTable(t, nowMs, reason)) == ActiveIds(t) - RunningIds(t)
    ensures TerminalIds(InterruptedTable(t, nowMs, reason)) == TerminalIds(t) + RunningIds(t)
    ensures RunningIds(InterruptedTable(t, nowMs, reason)) == {}
    ensures QueuedIds(InterruptedTable(t, nowMs, reason)) == QueuedIds(t)
  {
  }

  lemma PruneSets(t: Table, cutoffMs: int)
    ensures ActiveIds(PrunedTable(t, cutoffMs)) == ActiveIds(t)
    ensures TerminalIds(PrunedTable(t, cutoffMs)) == TerminalIds(t) - PrunedIds(t, cutoffMs)
    ensures PrunedIds(t, cutoffMs) <= TerminalIds(t)
  {
  }

  /** `getActiveJobCount` drops by one exactly when a completion reports a transition. */
  lemma CountAfterComplete(t: Table, id: string, o: Outcome, atMs: int)
    ensures |ActiveIds(CompletedTable(t, id, o, atMs))| == |ActiveIds(t)| - (if Completes(t, id) then 1 else 0)
    ensures |TerminalIds(CompletedTable(t, id, o, atMs))| == |TerminalIds(t)| + (if Completes(t, id) then 1 else 0)
  {
    if Completes(t, id) {
      CompleteSets(t, id, o, atMs);
      SubsetCount({id}, ActiveIds(t));
    }
  }

  /** The same for a cancellation. */
  lemma CountAfterCancel(t: Table, id: string, nowMs: int)
    ensures |ActiveIds(CancelledTable(t, id, nowMs))| == |ActiveIds(t)| - (if Cancels(t, id) then 1 else 0)
    ensures |TerminalIds(CancelledTable(t, id, nowMs))| == |TerminalIds(t)| + (if Cancels(t, id) then 1 else 0)
  {
    if Cancels(t, id) {
      CancelSets(t, id, nowMs);
      SubsetCount({id}, ActiveIds(t));
    }
  }

  /** The startup interruption lowers the active count by the number of rows it returns. */
  lemma CountAfterInterrupt(t: Table, nowMs: int, reason: string)
    ensures |ActiveIds(InterruptedTable(t, nowMs, reason))| == |ActiveIds(t)| - |RunningIds(t)|
    ensures |TerminalIds(InterruptedTable(t, nowMs, reason))| == |TerminalIds(t)| + |RunningIds(t)|
  {
    InterruptSets(t, nowMs, reason);
    assert RunningIds(t) <= ActiveIds(t);
    SubsetCount(RunningIds(t), ActiveIds(t));
    assert RunningIds(t) !! TerminalIds(t);
  }

  /**
   * Pruning deletes terminal rows only and keeps every other row as it was; on rows
   * of the proper shape the COALESCE always resolves to `completed_at`.
   */
  lemma PruneExact(t: Table, cutoffMs: int)
    requires forall id :: id in t ==> RowShape(t[id])
    ensures |ActiveIds(PrunedTable(t, cutoffMs))| == |ActiveIds(t)|
    ensures |TerminalIds(PrunedTable(t, cutoffMs))| == |TerminalIds(t)| - |PrunedIds(t, cutoffMs)|
    ensures forall id :: id in PrunedTable(t, cutoffMs) <==>
                         id in t && !(t[id].completedAt.Some? && t[id].completedAt.value < cutoffMs)
    ensures forall id :: id in PrunedTable(t, cutoffMs) ==> PrunedTable(t, cutoffMs)[id] == t[id]
  {
    PruneSets(t, cutoffMs);
    SubsetCount(PrunedIds(t, cutoffMs), TerminalIds(t));
  }

  lemma PruneCount(t: Table, cutoffMs: int)
    ensures |PrunedTable(t, cutoffMs)| == |t| - |PrunedIds(t, cutoffMs)|
    ensures WellFormed(t) ==> WellFormed(PrunedTable(t, cutoffMs))
  {
  }

  lemma DisjointCount(a: set<string>, b: set<string>, all: set<string>)
    requires a !! b && forall x :: x in all <==> x in a || x in b
    ensures |all| == |a| + |b|
  {
    assert all == a + b;
  }

  lemma RowsPartition(t: Table)
    ensures |t| == |ActiveIds(t)| + |TerminalIds(t)|
    ensures |ActiveIds(t)| == |QueuedIds(t)| + |RunningIds(t)|
  {
    DisjointCount(ActiveIds(t), TerminalIds(t), t.Keys);
    DisjointCount(QueuedIds(t), RunningIds(t), ActiveIds(t));
  }
}

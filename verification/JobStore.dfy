/** The job store: one method per exported operation, each a single atomic statement or transaction. */
module JobStore {
  import opened Options
  import opened Text
  import opened JobTypes
  import opened JobTable

  const RESTART_REASON := "Relay restarted while job was running"

  function Lookup(t: Table, id: string): Option<Job> {
    if id in t then Some(t[id]) else None
  }

  function JobIds(jobs: seq<Job>): (ids: seq<string>)
    ensures |ids| == |jobs|
    ensures forall i :: 0 <= i < |jobs| ==> ids[i] == jobs[i].id
  {
    seq(|jobs|, i requires 0 <= i < |jobs| => jobs[i].id)
  }

  /** What the INSERT stores: the title trimmed, and the description trimmed or, when blank, absent. */
  function Normalized(spec: JobSpec): JobSpec {
    spec.(title := Trim(spec.title),
          description := if spec.description.Some? && Trim(spec.description.value) != ""
                         then Some(Trim(spec.description.value)) else None)
  }

  /** What is stored is trimmed already: submitting it again stores the same. */
  lemma NormalizedTwice(spec: JobSpec)
    ensures Normalized(Normalized(spec)) == Normalized(spec)
  {
    TrimTwice(spec.title);
    if spec.description.Some? {
      TrimTwice(spec.description.value);
    }
  }

  /** The row holds what the creator gave: every column as it is, texts without the white space around them. */
  ghost predicate StoredAsGiven(job: Job, id: string, shortIds: seq<string>, given: JobSpec, nowMs: int) {
    && job.id == id && job.shortId in shortIds && job.createdAt == nowMs && job.status == Queued
    && job.spec.userId == given.userId && job.spec.chatId == given.chatId && job.spec.threadId == given.threadId
    && job.spec.tier == given.tier && job.spec.payload == given.payload
    && job.spec.title != "" && Stripped(job.spec.title, given.title)
    && (job.spec.description == None <==> given.description == None || AllSpace(given.description.value))
    && (job.spec.description.Some? ==> Stripped(job.spec.description.value, given.description.value))
  }

  lemma NormalizedIsGiven(t: Table, id: string, shortIds: seq<string>, given: JobSpec, nowMs: int)
    ensures var r := CreateOutcome(t, id, shortIds, Normalized(given), nowMs);
            && (r == TitleRequired <==> AllSpace(given.title))
            && (r.Created? ==> StoredAsGiven(r.job, id, shortIds, given, nowMs))
  {
    TrimStrips(given.title);
    if given.description.Some? {
      TrimStrips(given.description.value);
    }
    var k := FirstFreeIsFirst(ShortIds(t), shortIds);
  }

  class Store {
    var rows: Table

    constructor ()
      ensures rows == map[]
    {
      rows := map[];
    }

    ghost predicate Valid()
      reads this
    {
      WellFormed(rows)
    }

    /** The loop retries the INSERT while the random short id collides, ten times at most. */
    method CreateJob(id: string, shortIds: seq<string>, spec: JobSpec, nowMs: int) returns (r: CreateResult)
      requires Valid()
      requires |shortIds| == MAX_SHORT_ID_ATTEMPTS
      modifies this
      ensures Valid()
      ensures r == CreateOutcome(old(rows), id, shortIds, Normalized(spec), nowMs)
      ensures rows == CreatedTable(old(rows), r)
      ensures r.Created? ==> id !in old(rows) && Lookup(rows, id) == Some(r.job)
      ensures r.Created? ==> StoredAsGiven(r.job, id, shortIds, spec, nowMs)
      ensures r == TitleRequired <==> AllSpace(spec.title)
    {
      NormalizedIsGiven(rows, id, shortIds, spec, nowMs);
      var stored := Normalized(spec);
      if stored.title == "" {
        return TitleRequired;
      }
      if stored.payload == None {
        return PayloadRefused;
      }
      for attempt := 0 to MAX_SHORT_ID_ATTEMPTS
        invariant rows == old(rows)
        invariant attempt > 0 ==> id !in rows
        invariant FirstFree(ShortIds(rows), shortIds) == FirstFree(ShortIds(rows), shortIds[attempt..])
      {
        if id in rows {
          return IdTaken;
        }
        if shortIds[attempt] !in ShortIds(rows) {
          var job := FreshJob(id, shortIds[attempt], stored, nowMs);
          rows := rows[id := job];
          return Created(job);
        }
        assert shortIds[attempt..][1..] == shortIds[attempt + 1..];
      }
      return ShortIdExhausted;
    }

    method GetJob(id: string) returns (job: Option<Job>)
      ensures job == Lookup(rows, id)
    {
      job := if id in rows then Some(rows[id]) else None;
    }

    /** SELECT ... WHERE status = 'queued' ORDER BY created_at ASC LIMIT ?, ties broken arbitrarily. */
    method SelectOldestQueued(limit: nat) returns (ids: seq<string>)
      ensures OldestQueued(rows, limit, ids)
    {
      ids := [];
      var rest := QueuedIds(rows);
      while |ids| < limit && rest != {}
        invariant OldestSoFar(rows, ids, rest) && |ids| <= limit
        decreases rest
      {
        var id := Oldest(rest);
        OneMoreOldest(rows, ids, rest, id);
        ids := ids + [id];
        rest := rest - {id};
      }
      SelectionComplete(rows, limit, ids, rest);
    }

    method Oldest(among: set<string>) returns (id: string)
      requires among != {} && among <= rows.Keys
      ensures id in among
      ensures forall other :: other in among ==> rows[id].createdAt <= rows[other].createdAt
    {
      id :| id in among;
      var rest := among - {id};
      while rest != {}
        invariant id in among && rest <= among
        invariant forall other :: other in among && other !in rest ==> rows[id].createdAt <= rows[other].createdAt
        decreases rest
      {
        var next :| next in rest;
        if rows[next].createdAt < rows[id].createdAt {
          id := next;
        }
        rest := rest - {next};
      }
    }

    /** SELECT ... WHERE status = 'running', in no promised order. */
    method SelectRunning() returns (ids: seq<string>)
      ensures Distinct(ids)
      ensures IdSet(ids) == RunningIds(rows)
    {
      ids := [];
      var rest := RunningIds(rows);
      while rest != {}
        invariant rest <= RunningIds(rows)
        invariant IdSet(ids) == RunningIds(rows) - rest
        invariant Distinct(ids)
        decreases rest
      {
        var id :| id in rest;
        assert IdSet(ids + [id]) == IdSet(ids) + {id};
        ids := ids + [id];
        rest := rest - {id};
      }
    }

    /** One guarded UPDATE per selected row, inside the claim's transaction. */
    method ClaimRows(ids: seq<string>, nowMs: int) returns (claimed: seq<Job>)
      requires Distinct(ids) && forall i :: 0 <= i < |ids| ==> ids[i] in QueuedIds(rows)
      modifies this
      ensures rows == ClaimedTable(old(rows), ids, nowMs)
      ensures |claimed| == |ids|
      ensures forall i :: 0 <= i < |ids| ==> ids[i] in old(rows) && claimed[i] == ClaimedRow(old(rows)[ids[i]], nowMs)
    {
      ghost var snapshot := rows;
      claimed := [];
      for k := 0 to |ids|
        invariant |claimed| == k
        invariant rows == ClaimedTable(snapshot, ids[..k], nowMs)
        invariant forall i :: 0 <= i < k ==> claimed[i] == ClaimedRow(snapshot[ids[i]], nowMs)
      {
        ClaimOneMore(snapshot, ids, k, nowMs);
        if ids[k] in rows && rows[ids[k]].status == Queued {
          claimed := claimed + [ClaimedRow(rows[ids[k]], nowMs)];
          rows := rows[ids[k] := ClaimedRow(rows[ids[k]], nowMs)];
        }
      }
      assert ids[..|ids|] == ids;
    }

    /** Flips up to `limit` queued rows to `running`; each returned record is the stored row. */
    method ClaimQueuedJobs(nowMs: int, limit: int) returns (claimed: seq<Job>)
      requires Valid()
      modifies this
      ensures Valid()
      ensures OldestQueued(old(rows), EffectiveLimit(limit), JobIds(claimed))
      ensures rows == ClaimedTable(old(rows), JobIds(claimed), nowMs)
      ensures forall i :: 0 <= i < |claimed| ==> Lookup(rows, claimed[i].id) == Some(claimed[i])
    {
      var ids := SelectOldestQueued(EffectiveLimit(limit));
      assert forall i :: 0 <= i < |ids| ==> ids[i] in QueuedIds(rows);
      claimed := ClaimRows(ids, nowMs);
      assert JobIds(claimed) == ids;
      KeyColumnsKept(old(rows), rows);
    }

    /** UPDATE ... WHERE id = ? AND status = 'running'; says whether a row changed. */
    method UpdateFinished(id: string, o: Outcome, atMs: int) returns (changed: bool)
      requires Valid()
      modifies this
      ensures Valid()
      ensures rows == CompletedTable(old(rows), id, o, atMs)
      ensures changed == Completes(old(rows), id)
    {
      changed := id in rows && rows[id].status == Running;
      if changed {
        rows := rows[id := FinishedRow(rows[id], o, atMs)];
      }
    }

    /** The UPDATE and the read-back, when no other process writes in between. */
    method CompleteJob(id: string, o: Outcome, finishedAtMs: Option<int>, nowMs: int)
      returns (job: Option<Job>, transitioned: bool)
      requires Valid()
      modifies this
      ensures Valid()
      ensures rows == CompletedTable(old(rows), id, o, if finishedAtMs.Some? then finishedAtMs.value else nowMs)
      ensures transitioned == Completes(old(rows), id)
      ensures job == Lookup(rows, id)
    {
      transitioned := UpdateFinished(id, o, if finishedAtMs.Some? then finishedAtMs.value else nowMs);
      job := GetJob(id);
    }

    /** UPDATE ... WHERE id = ? AND status IN ('queued', 'running'); says whether a row changed. */
    method UpdateCancelled(id: string, nowMs: int) returns (changed: bool)
      requires Valid()
      modifies this
      ensures Valid()
      ensures rows == CancelledTable(old(rows), id, nowMs)
      ensures changed == Cancels(old(rows), id)
    {
      changed := id in rows && (rows[id].status == Queued || rows[id].status == Running);
      if changed {
        rows := rows[id := CancelledRow(rows[id], nowMs)];
      }
    }

    method CancelJob(id: string, nowMs: int) returns (job: Option<Job>, transitioned: bool)
      requires Valid()
      modifies this
      ensures Valid()
      ensures rows == CancelledTable(old(rows), id, nowMs)
      ensures transitioned == Cancels(old(rows), id)
      ensures job == Lookup(rows, id)
    {
      transitioned := UpdateCancelled(id, nowMs);
      job := GetJob(id);
    }

    /** Flips every running row; returns exactly those rows, as they are now stored. */
    method MarkInterruptedOnStartup(nowMs: int, reason: string) returns (changed: seq<Job>)
      requires Valid()
      modifies this
      ensures Valid()
      ensures rows == InterruptedTable(old(rows), nowMs, reason)
      ensures Distinct(JobIds(changed)) && IdSet(JobIds(changed)) == RunningIds(old(rows))
      ensures forall i :: 0 <= i < |changed| ==> Lookup(rows, changed[i].id) == Some(changed[i])
    {
      var ids := SelectRunning();
      var snapshot := rows;
      changed := [];
      assert forall i :: 0 <= i < |ids| ==> ids[i] in IdSet(ids) && ids[i] in RunningIds(snapshot);
      assert rows == InterruptedRows(snapshot, IdSet(ids[..0]), nowMs, reason);
      for k := 0 to |ids|
        invariant |changed| == k
        invariant rows == InterruptedRows(snapshot, IdSet(ids[..k]), nowMs, reason)
        invariant forall i :: 0 <= i < k ==> changed[i] == InterruptedRow(snapshot[ids[i]], nowMs, reason)
      {
        InterruptOneMore(snapshot, ids, k, nowMs, reason);
        if ids[k] in rows && rows[ids[k]].status == Running {
          rows := rows[ids[k] := InterruptedRow(rows[ids[k]], nowMs, reason)];
          changed := changed + [InterruptedRow(snapshot[ids[k]], nowMs, reason)];
        }
      }
      assert ids[..|ids|] == ids;
      assert JobIds(changed) == ids;
      KeyColumnsKept(snapshot, rows);
    }

    method PruneOldJobs(cutoffMs: int) returns (changes: nat)
      requires Valid()
      modifies this
      ensures Valid()
      ensures rows == PrunedTable(old(rows), cutoffMs)
      ensures changes == |old(rows)| - |rows|
    {
      PruneCount(rows, cutoffMs);
      var gone := PrunedIds(rows, cutoffMs);
      changes := |gone|;
      rows := rows - gone;
    }

    method GetActiveJobCount() returns (count: nat)
      ensures count == |ActiveIds(rows)|
    {
      count := |ActiveIds(rows)|;
    }
  }
}

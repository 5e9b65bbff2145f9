/** Where every column of a row comes from: each stored value is traced to the step that supplied it. */
module JobProvenance {
  import opened Options
  import opened JobTypes
  import opened JobTable
  import opened JobStore
  import opened JobProtocol
  import opened JobSafety

  /** No step rewrites the columns that the INSERT filled in. */
  lemma ImmutableColumns(s: Sys, a: Step, id: string)
    requires Enabled(s, a) && IdsOk(s) && id in s.table && id in Apply(s, a).table
    ensures var before, after := s.table[id], Apply(s, a).table[id];
            before.spec == after.spec && before.createdAt == after.createdAt && before.shortId == after.shortId
  {
  }

  lemma NewRowIsCreated(s: Sys, a: Step, id: string)
    requires Enabled(s, a) && IdsOk(s) && id !in s.table && id in Apply(s, a).table
    ensures a.Create? && a.id == id && id !in s.ever
    ensures var row := Apply(s, a).table[id];
            && row.spec == a.spec && row.createdAt == a.nowMs && row.spec.title != "" && row.spec.payload.Some?
            && row.status == Queued && row.shortId in a.shortIds && row.shortId !in ShortIds(s.table)
  {
    var k := FirstFreeIsFirst(ShortIds(s.table), a.shortIds);
  }

  /** The row that `id` names was inserted by one create call, and still carries what that call supplied. */
  lemma {:induction false} CreatedBy(run: seq<Sys>, acts: seq<Step>, j: nat, id: string) returns (c: nat)
    requires IsRun(run, acts) && j < |run| && id in run[j].table
    ensures c < j && acts[c].Create? && acts[c].id == id
    ensures var row := run[j].table[id];
            row.spec == acts[c].spec && row.createdAt == acts[c].nowMs && row.shortId in acts[c].shortIds
    decreases j
  {
    assert run[0].table == map[];
    InvOnRun(run, acts, j - 1);
    if id in run[j - 1].table {
      c := CreatedBy(run, acts, j - 1, id);
      ImmutableColumns(run[j - 1], acts[j - 1], id);
    } else {
      c := j - 1;
      NewRowIsCreated(run[j - 1], acts[j - 1], id);
    }
  }

  lemma StartTimeStep(s: Sys, a: Step, id: string)
    requires Enabled(s, a) && IdsOk(s) && id in Apply(s, a).table && Apply(s, a).table[id].startedAt.Some?
    ensures (id in s.table && s.table[id].startedAt == Apply(s, a).table[id].startedAt)
         || (Claims(a, id) && Apply(s, a).table[id].startedAt == Some(a.nowMs))
  {
  }

  /** `started_at` is the time of the poll that claimed the job. */
  lemma {:induction false} StartedBy(run: seq<Sys>, acts: seq<Step>, j: nat, id: string) returns (k: nat)
    requires IsRun(run, acts) && j < |run| && id in run[j].table && run[j].table[id].startedAt.Some?
    ensures k < j && Claims(acts[k], id) && run[j].table[id].startedAt == Some(acts[k].nowMs)
    decreases j
  {
    assert run[0].table == map[];
    InvOnRun(run, acts, j - 1);
    StartTimeStep(run[j - 1], acts[j - 1], id);
    if id in run[j - 1].table && run[j - 1].table[id].startedAt == run[j].table[id].startedAt {
      k := StartedBy(run, acts, j - 1, id);
    } else {
      k := j - 1;
    }
  }

  /** No step takes a start time back. */
  lemma StartTimeKept(s: Sys, a: Step, id: string)
    requires Enabled(s, a) && IdsOk(s) && RowsOk(s)
    requires id in s.table && s.table[id].startedAt.Some? && id in Apply(s, a).table
    ensures Apply(s, a).table[id].startedAt == s.table[id].startedAt
  {
    assert RowShape(s.table[id]);
  }

  lemma ClaimSetsStart(s: Sys, a: Step, id: string)
    requires Enabled(s, a) && Claims(a, id)
    ensures ClaimedAt(Apply(s, a), id, a.nowMs)
  {
    assert id in QueuedIds(s.table);
  }

  /** `id` was claimed at `time`, and its row, if it is still there, says so. */
  predicate ClaimedAt(s: Sys, id: string, time: int) {
    Rank(s, id) >= 2 && (id in s.table ==> s.table[id].startedAt == Some(time))
  }

  lemma ClaimedAtStep(s: Sys, a: Step, id: string, time: int)
    requires Inv(s) && Enabled(s, a) && ClaimedAt(s, id, time)
    ensures ClaimedAt(Apply(s, a), id, time)
  {
    RankNeverFalls(s, a, id);
    if id in s.table && id in Apply(s, a).table {
      StartTimeKept(s, a, id);
    }
  }

  /** From the claim on, completed, cancelled or interrupted, the row keeps the time of the poll that claimed it. */
  lemma {:induction false} StartTimeStays(run: seq<Sys>, acts: seq<Step>, k: nat, j: nat, id: string)
    requires IsRun(run, acts) && k < j < |run| && Claims(acts[k], id)
    ensures ClaimedAt(run[j], id, acts[k].nowMs)
    decreases j
  {
    if k + 1 == j {
      ClaimSetsStart(run[k], acts[k], id);
    } else {
      StartTimeStays(run, acts, k, j - 1, id);
      InvOnRun(run, acts, j - 1);
      ClaimedAtStep(run[j - 1], acts[j - 1], id, acts[k].nowMs);
    }
  }

  lemma CheckedStep(s: Sys, a: Step, r: nat, id: string, o: Outcome)
    requires Enabled(s, a) && IsLive(Apply(s, a), r) && Apply(s, a).relays[r].phase == Checked(id, o)
    ensures (IsLive(s, r) && s.relays[r].phase == Checked(id, o)) || a == Settle(r, id, o)
  {
  }

  /** A relay about to write the end of a job has seen its executor settle with that very outcome. */
  lemma {:induction false} SettledBefore(run: seq<Sys>, acts: seq<Step>, j: nat, r: nat, id: string, o: Outcome)
    returns (k: nat)
    requires IsRun(run, acts) && j < |run| && IsLive(run[j], r) && run[j].relays[r].phase == Checked(id, o)
    ensures k < j && acts[k] == Settle(r, id, o)
    decreases j
  {
    assert run[0].relays == map[];
    CheckedStep(run[j - 1], acts[j - 1], r, id, o);
    if acts[j - 1] == Settle(r, id, o) {
      k := j - 1;
    } else {
      k := SettledBefore(run, acts, j - 1, r, id, o);
    }
  }

  /** The report at step `i` explains the terminal row. */
  ghost predicate EndedBy(row: Job, a: Step, o: Outcome) {
    match a
    case Cancel(_, nowMs) => row.status == Cancelled && row.completedAt == Some(nowMs)
    case Boot(_, nowMs) =>
      row.status == Interrupted && row.completedAt == Some(nowMs) && row.error == Some(RESTART_REASON)
    case Write(_, nowMs) =>
      && row.status == (if o.ok then Completed else Failed)
      && row.result == o.result && row.error == o.error && row.completedAt == Some(nowMs)
    case _ => false
  }

  lemma EndStep(s: Sys, a: Step, id: string) returns (o: Outcome)
    requires Inv(s) && Enabled(s, a) && Reports(s, a, id)
    ensures id in Apply(s, a).table && EndedBy(Apply(s, a).table[id], a, o)
    ensures a.Write? ==> s.relays[a.relay].phase == Checked(id, o)
  {
    o := if a.Write? then s.relays[a.relay].phase.outcome else Outcome(false, None, None);
  }

  /**
   * The whole story of a terminal row: either a cancellation or a restart set its status and time, or a
   * relay wrote exactly the outcome, success or failure, result and error, with which the executor settled.
   */
  lemma TerminalRowExplained(run: seq<Sys>, acts: seq<Step>, j: nat, id: string) returns (i: nat, k: nat, o: Outcome)
    requires IsRun(run, acts) && j < |run|
    requires id in run[j].table && IsTerminal(run[j].table[id].status)
    ensures i < j && Reports(run[i], acts[i], id) && EndedBy(run[j].table[id], acts[i], o)
    ensures acts[i].Write? ==> k < i && acts[k] == Settle(acts[i].relay, id, o)
  {
    i := TerminalWasReported(run, acts, j, id);
    InvOnRun(run, acts, i);
    o := EndStep(run[i], acts[i], id);
    k := 0;
    if acts[i].Write? {
      k := SettledBefore(run, acts, i, acts[i].relay, id, o);
    }
  }
}

/** The methods of the store, the runner and the host are the steps of the protocol. */
module JobRefinement {
  import opened Options
  import opened JobTypes
  import opened JobTable
  import opened JobStore
  import opened BackgroundRunner
  import opened JobProtocol
  import opened JobSafety

  /** The state `s` describes this runner, as relay `r`, with its event loop at `phase`. */
  ghost predicate MatchesAt(s: Sys, runner: Runner, r: nat, phase: Phase)
    reads runner, runner.store
  {
    && s.table == runner.store.rows
    && r in s.relays && s.relays[r] == Live(runner.maxJobsPerTick, runner.inFlight, runner.stopped, phase)
  }

  /** The same between two turns of the event loop. */
  ghost predicate Matches(s: Sys, runner: Runner, r: nat)
    reads runner, runner.store
  {
    MatchesAt(s, runner, r, Idle)
  }

  ghost predicate CanRun(s: Sys, acts: seq<Step>)
    decreases |acts|
  {
    acts != [] ==> Enabled(s, acts[0]) && CanRun(Apply(s, acts[0]), acts[1..])
  }

  ghost function After(s: Sys, acts: seq<Step>): Sys
    requires CanRun(s, acts)
    decreases |acts|
  {
    if acts == [] then s else After(Apply(s, acts[0]), acts[1..])
  }

  /** What the hook receives along `acts`. */
  ghost function HookCalls(s: Sys, acts: seq<Step>): seq<Job>
    requires CanRun(s, acts)
    decreases |acts|
  {
    if acts == [] then []
    else
      (match HookCall(s, acts[0]) case Some(job) => [job] case None => []) + HookCalls(Apply(s, acts[0]), acts[1..])
  }

  lemma OneStepFirst(s: Sys, a: Step, rest: seq<Step>)
    requires Enabled(s, a) && CanRun(Apply(s, a), rest)
    ensures CanRun(s, [a] + rest)
    ensures After(s, [a] + rest) == After(Apply(s, a), rest)
    ensures HookCalls(s, [a] + rest)
         == (if HookCall(s, a).Some? then [HookCall(s, a).value] else []) + HookCalls(Apply(s, a), rest)
  {
  }

  /** A poll is one Tick step; the records it dispatches are the claimed rows in order. */
  method TickIsAStep(runner: Runner, nowMs: int, ghost s: Sys, ghost r: nat)
    returns (dispatched: seq<Job>, ghost a: Step)
    requires runner.Valid() && Matches(s, runner, r)
    modifies runner, runner.store
    ensures runner.Valid()
    ensures a == Tick(r, nowMs, JobIds(dispatched)) && Enabled(s, a) && Matches(Apply(s, a), runner, r)
  {
    dispatched := runner.Tick(nowMs);
    a := Tick(r, nowMs, JobIds(dispatched));
    assert dispatched == [] ==> ClaimedTable(s.table, JobIds(dispatched), nowMs) == s.table;
    assert dispatched == [] ==> IdSet(JobIds(dispatched)) == {};
  }

  // ----- A finish, one step at a time: between two of them any process may change the table

  /** The status check decides what comes next, and hands a row that is not running to the hook as it is. */
  method SettleIsAStep(runner: Runner, id: string, o: Outcome, ghost s: Sys, ghost r: nat)
    returns (current: Option<Job>)
    requires runner.Valid() && Matches(s, runner, r) && id in runner.inFlight
    modifies runner
    ensures runner.Valid()
    ensures var running := current.Some? && current.value.status == Running;
            && MatchesAt(Apply(s, Settle(r, id, o)), runner, r, if running then Checked(id, o) else Idle)
            && HookCall(s, Settle(r, id, o)) == if running then None else current
  {
    current := runner.ReleaseAndCheck(id);
  }

  /** The terminal UPDATE, whatever has happened to the row since the check. */
  method WriteIsAStep(runner: Runner, id: string, o: Outcome, nowMs: int, ghost s: Sys, ghost r: nat)
    returns (transitioned: bool)
    requires runner.Valid() && MatchesAt(s, runner, r, Checked(id, o))
    modifies runner.store
    ensures runner.Valid()
    ensures MatchesAt(Apply(s, Write(r, nowMs)), runner, r, Written(id))
    ensures transitioned == Reports(s, Write(r, nowMs), id)
  {
    transitioned := runner.store.UpdateFinished(id, o, nowMs);
  }

  /** The read-back: the hook gets the row as it is stored now. */
  method RereadIsAStep(runner: Runner, id: string, ghost s: Sys, ghost r: nat) returns (persisted: Option<Job>)
    requires runner.Valid() && MatchesAt(s, runner, r, Written(id))
    ensures Matches(Apply(s, Reread(r)), runner, r)
    ensures persisted == HookCall(s, Reread(r))
  {
    persisted := runner.store.GetJob(id);
  }

  // ----- A finish that nobody disturbs

  function FinishSteps(t: Table, r: nat, id: string, o: Outcome, nowMs: int): seq<Step> {
    if Completes(t, id) then [Settle(r, id, o), Write(r, nowMs), Reread(r)] else [Settle(r, id, o)]
  }

  /** The steps of an undisturbed finish free the slot, write the end once, and call the hook once if the row exists. */
  lemma FinishRuns(s: Sys, r: nat, id: string, o: Outcome, nowMs: int)
    requires Ready(s, r) && id in s.relays[r].inFlight
    ensures var acts := FinishSteps(s.table, r, id, o, nowMs);
            && CanRun(s, acts)
            && After(s, acts).table == CompletedTable(s.table, id, o, nowMs)
            && IsLive(After(s, acts), r)
            && After(s, acts).relays[r] == s.relays[r].(inFlight := s.relays[r].inFlight - {id})
            && HookCalls(s, acts) == if id in s.table then [CompletedTable(s.table, id, o, nowMs)[id]] else []
  {
    var settle, write, reread := Settle(r, id, o), Write(r, nowMs), Reread(r);
    var s1 := Apply(s, settle);
    if Completes(s.table, id) {
      var s2 := Apply(s1, write);
      OneStepFirst(s2, reread, []);
      OneStepFirst(s1, write, [reread]);
      OneStepFirst(s, settle, [write, reread]);
      assert [reread] + [] == [reread] && [write] + [reread] == [write, reread];
      assert [settle] + [write, reread] == [settle, write, reread];
    } else {
      OneStepFirst(s, settle, []);
      assert [settle] + [] == [settle];
    }
  }

  /** An undisturbed finish is Settle alone, or Settle, Write and Reread; the hook gets the delivered record. */
  method FinishIsSteps(runner: Runner, id: string, o: Outcome, nowMs: int, ghost s: Sys, ghost r: nat)
    returns (delivered: Option<Job>)
    requires runner.Valid() && Matches(s, runner, r) && id in runner.inFlight
    modifies runner, runner.store
    ensures runner.Valid()
    ensures CanRun(s, FinishSteps(s.table, r, id, o, nowMs))
    ensures Matches(After(s, FinishSteps(s.table, r, id, o, nowMs)), runner, r)
    ensures HookCalls(s, FinishSteps(s.table, r, id, o, nowMs)) == if delivered.Some? then [delivered.value] else []
  {
    FinishRuns(s, r, id, o, nowMs);
    delivered := runner.FinishJob(id, o, nowMs);
  }

  lemma StartupRuns(s: Sys, r: nat, nowMs: int, maxJobs: Option<int>)
    requires r !in s.relays
    ensures var acts := [Boot(r, nowMs), Launch(r, maxJobs)];
            && CanRun(s, acts)
            && After(s, acts).table == InterruptedTable(s.table, nowMs, RESTART_REASON)
            && After(s, acts).relays == s.relays[r := Live(MaxJobsPerTick(maxJobs), {}, false, Idle)]
  {
    OneStepFirst(Apply(s, Boot(r, nowMs)), Launch(r, maxJobs), []);
    OneStepFirst(s, Boot(r, nowMs), [Launch(r, maxJobs)]);
    assert [Launch(r, maxJobs)] + [] == [Launch(r, maxJobs)];
    assert [Boot(r, nowMs)] + [Launch(r, maxJobs)] == [Boot(r, nowMs), Launch(r, maxJobs)];
    assert s.relays[r := Booted][r := Live(MaxJobsPerTick(maxJobs), {}, false, Idle)]
        == s.relays[r := Live(MaxJobsPerTick(maxJobs), {}, false, Idle)];
  }

  /** Relay startup is Boot, then Launch: the interrupted rows are those whose interruption Boot reports. */
  method StartupIsSteps(store: Store, nowMs: int, maxJobs: Option<int>, ghost s: Sys, ghost r: nat)
    returns (runner: Runner, interrupted: seq<Job>)
    requires store.Valid() && s.table == store.rows && r !in s.relays
    modifies store
    ensures runner.Valid() && runner.store == store
    ensures CanRun(s, [Boot(r, nowMs), Launch(r, maxJobs)])
    ensures Matches(After(s, [Boot(r, nowMs), Launch(r, maxJobs)]), runner, r)
    ensures forall id :: id in JobIds(interrupted) <==> Reports(s, Boot(r, nowMs), id)
  {
    interrupted := HandleStartupInterruptions(store, nowMs);
    runner := new Runner(store, maxJobs);
    StartupRuns(s, r, nowMs, maxJobs);
    assert forall id :: id in JobIds(interrupted) <==> id in IdSet(JobIds(interrupted));
  }

  /** The `transitioned` flag of a cancellation is the report of the Cancel step. */
  method CancelIsAStep(store: Store, id: string, nowMs: int, ghost s: Sys) returns (transitioned: bool)
    requires store.Valid() && s.table == store.rows
    modifies store
    ensures store.rows == Apply(s, Cancel(id, nowMs)).table
    ensures transitioned == Reports(s, Cancel(id, nowMs), id)
  {
    var job;
    job, transitioned := store.CancelJob(id, nowMs);
  }

  /** Pruning is a Prune step, and the number it returns is the number of jobs that the step removes. */
  method PruneIsAStep(store: Store, cutoffMs: int, ghost s: Sys) returns (changes: nat)
    requires store.Valid() && s.table == store.rows
    modifies store
    ensures store.rows == Apply(s, Prune(cutoffMs)).table
    ensures changes == |s.table| - |Apply(s, Prune(cutoffMs)).table|
  {
    changes := store.PruneOldJobs(cutoffMs);
  }

  /** Stopping a runner is a Stop step: what is in flight stays in flight. */
  method StopIsAStep(runner: Runner, ghost s: Sys, ghost r: nat)
    requires runner.Valid() && Matches(s, runner, r)
    modifies runner
    ensures runner.Valid() && Matches(Apply(s, Stop(r)), runner, r)
  {
    runner.Stop();
  }

  /** On every run the reported number of active jobs is that of the jobs created and neither ended nor gone. */
  method ActiveCountOnRun(store: Store, ghost run: seq<Sys>, ghost acts: seq<Step>, ghost i: nat) returns (count: nat)
    requires IsRun(run, acts) && i < |run| && store.rows == run[i].table
    ensures count == |run[i].ever| - |TerminalIds(run[i].table)| - |run[i].pruned|
  {
    Conservation(run, acts, i);
    count := store.GetActiveJobCount();
  }

  /** Creating a job under an id that was never used is a Create step, also when it is refused. */
  method CreateIsAStep(store: Store, id: string, shortIds: seq<string>, spec: JobSpec, nowMs: int, ghost s: Sys)
    returns (result: CreateResult)
    requires store.Valid() && s.table == store.rows && id !in s.ever && |shortIds| == MAX_SHORT_ID_ATTEMPTS
    modifies store
    ensures store.rows == Apply(s, Create(id, shortIds, Normalized(spec), nowMs)).table
  {
    result := store.CreateJob(id, shortIds, spec, nowMs);
  }

  /**
   * A create call that another process interrupts between two INSERT attempts is several Create steps: one
   * whose attempts all collide changes nothing, and the next goes on with the attempts that are left.
   */
  lemma CreateInPieces(s: Sys, id: string, tried: seq<string>, left: seq<string>, spec: JobSpec, nowMs: int)
    requires IdsOk(s) && Enabled(s, Create(id, tried + left, spec, nowMs)) && left != []
    requires CreateOutcome(s.table, id, tried, spec, nowMs) == ShortIdExhausted
    ensures Enabled(s, Create(id, tried, spec, nowMs))
    ensures var waiting := Apply(s, Create(id, tried, spec, nowMs));
            && waiting == s.(clock := nowMs)
            && Enabled(waiting, Create(id, left, spec, nowMs))
            && Apply(waiting, Create(id, left, spec, nowMs)) == Apply(s, Create(id, tried + left, spec, nowMs))
  {
    CreateResumes(s.table, id, tried, left, spec, nowMs);
    assert s.ever + s.table.Keys == s.ever && s.pruned + (s.table.Keys - s.table.Keys) == s.pruned;
  }
}

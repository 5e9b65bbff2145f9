/**
 * Runs on which the announcement of a job goes wrong: what a relay start over a running job leads to, one
 * run for each way of losing an announcement, and a concrete run from which all of them continue.
 */
module JobNoticeRuns {
  import opened Options
  import opened JobTypes
  import opened JobTable
  import opened JobStore
  import opened JobProtocol
  import opened JobSafety
  import opened JobNotices

  /** The longer run goes on where the shorter one ends. */
  ghost predicate Extends(run: seq<Sys>, acts: seq<Step>, run': seq<Sys>, acts': seq<Step>) {
    IsRun(run, acts) && IsRun(run', acts') && run <= run' && acts <= acts'
  }

  lemma LongerRun(run: seq<Sys>, acts: seq<Step>, a: Step) returns (run': seq<Sys>, acts': seq<Step>)
    requires IsRun(run, acts) && Enabled(run[|acts|], a)
    ensures acts' == acts + [a] && run' == run + [Apply(run[|acts|], a)] && Extends(run, acts, run', acts')
  {
    run', acts' := run + [Apply(run[|acts|], a)], acts + [a];
  }

  lemma ExtendsOn(
    run: seq<Sys>, acts: seq<Step>, run1: seq<Sys>, acts1: seq<Step>, run2: seq<Sys>, acts2: seq<Step>)
    requires Extends(run, acts, run1, acts1) && Extends(run1, acts1, run2, acts2)
    ensures Extends(run, acts, run2, acts2)
    ensures forall k :: 0 <= k < |acts1| ==> acts2[k] == acts1[k]
  {
  }

  // ----- A start over a running job

  function TurnsLeft(relay: Relay): nat {
    if relay.Booted? || relay.phase.Idle? then 0 else if relay.phase.Written? then 1 else 2
  }

  ghost predicate NoStartFrom(acts: seq<Step>, n: nat) {
    forall k :: n <= k < |acts| ==> !acts[k].Boot?
  }

  /** What the relay's event loop does next on its way to announcing `id`. */
  function NextTurn(s: Sys, r: nat, id: string, o: Outcome, nowMs: int): Step
    requires IsLive(s, r)
  {
    match s.relays[r].phase
    case Idle => Settle(r, id, o)
    case Checked(_, _) => Write(r, nowMs)
    case Written(_) => Reread(r)
  }

  /** The relay still has to announce `id`. */
  predicate Owes(s: Sys, r: nat, id: string) {
    IsLive(s, r) && id in Held(s.relays[r]) && Rank(s, id) == 3
  }

  lemma SettleTurn(s: Sys, r: nat, id: string, o: Outcome)
    requires Inv(s) && Owes(s, r, id) && s.relays[r].phase.Idle?
    ensures Enabled(s, Settle(r, id, o)) && Notifies(s, Settle(r, id, o), id)
  {
  }

  lemma WriteTurn(s: Sys, r: nat, id: string, nowMs: int)
    requires Inv(s) && Owes(s, r, id) && s.relays[r].phase.Checked?
    ensures Enabled(s, Write(r, nowMs)) && Owes(Apply(s, Write(r, nowMs)), r, id)
    ensures TurnsLeft(Apply(s, Write(r, nowMs)).relays[r]) == 1
  {
    RankNeverFalls(s, Write(r, nowMs), id);
  }

  lemma RereadTurn(s: Sys, r: nat, id: string)
    requires Inv(s) && Owes(s, r, id) && s.relays[r].phase.Written?
    ensures Enabled(s, Reread(r))
    ensures Notifies(s, Reread(r), id)
         || (Owes(Apply(s, Reread(r)), r, id) && TurnsLeft(Apply(s, Reread(r)).relays[r]) == 0)
  {
  }

  lemma OneTurn(s: Sys, r: nat, id: string, o: Outcome, nowMs: int)
    requires Inv(s) && Owes(s, r, id)
    ensures var a := NextTurn(s, r, id, o, nowMs);
            && Enabled(s, a)
            && (Notifies(s, a, id)
                || (Owes(Apply(s, a), r, id) && TurnsLeft(Apply(s, a).relays[r]) < TurnsLeft(s.relays[r])))
  {
    match s.relays[r].phase
    case Idle => SettleTurn(s, r, id, o);
    case Checked(_, _) => WriteTurn(s, r, id, nowMs);
    case Written(_) => RereadTurn(s, r, id);
  }

  lemma OneTurnOnRun(run: seq<Sys>, acts: seq<Step>, r: nat, id: string, o: Outcome, nowMs: int)
    returns (run': seq<Sys>, acts': seq<Step>)
    requires IsRun(run, acts) && Owes(run[|acts|], r, id)
    ensures Extends(run, acts, run', acts') && |acts'| == |acts| + 1 && !acts'[|acts|].Boot?
    ensures Notifies(run'[|acts|], acts'[|acts|], id)
         || (Owes(run'[|acts'|], r, id)
             && TurnsLeft(run'[|acts'|].relays[r]) < TurnsLeft(run[|acts|].relays[r]))
  {
    InvOnRun(run, acts, |acts|);
    OneTurn(run[|acts|], r, id, o, nowMs);
    run', acts' := LongerRun(run, acts, NextTurn(run[|acts|], r, id, o, nowMs));
  }

  /** A relay that holds a job whose row has ended goes on to announce it, wherever its event loop stands. */
  lemma {:induction false} HolderAnnounces(run: seq<Sys>, acts: seq<Step>, r: nat, id: string, o: Outcome, nowMs: int)
    returns (run': seq<Sys>, acts': seq<Step>)
    requires IsRun(run, acts) && Owes(run[|acts|], r, id)
    ensures Extends(run, acts, run', acts') && |acts| < |acts'| && NoStartFrom(acts', |acts|)
    ensures Notifies(run'[|acts'| - 1], acts'[|acts'| - 1], id)
    decreases TurnsLeft(run[|acts|].relays[r])
  {
    run', acts' := OneTurnOnRun(run, acts, r, id, o, nowMs);
    if !Notifies(run'[|acts|], acts'[|acts|], id) {
      var run1, acts1 := run', acts';
      run', acts' := HolderAnnounces(run1, acts1, r, id, o, nowMs);
      ExtendsOn(run, acts, run1, acts1, run', acts');
    }
  }

  /** A start over a job that another relay is running, in whatever phase, leads to a second announcement. */
  lemma UnsafeStartAnnouncesTwice(
    run: seq<Sys>, acts: seq<Step>, q: nat, id: string, o: Outcome, nowMs: int)
    returns (run': seq<Sys>, acts': seq<Step>)
    requires IsRun(run, acts) && q !in run[|acts|].relays
    requires id in RunningIds(run[|acts|].table) && HeldSomewhere(run[|acts|], id)
    ensures Extends(run, acts, run', acts') && |acts'| >= |acts| + 2
    ensures acts'[|acts|] == Boot(q, nowMs) && NoStartFrom(acts', |acts| + 1)
    ensures Notifies(run'[|acts|], acts'[|acts|], id) && Notifies(run'[|acts'| - 1], acts'[|acts'| - 1], id)
  {
    var s := run[|acts|];
    var r :| r in s.relays && id in Held(s.relays[r]);
    run', acts' := LongerRun(run, acts, Boot(q, nowMs));
    assert Apply(s, Boot(q, nowMs)).relays[r] == s.relays[r];
    run', acts' := HolderAnnounces(run', acts', r, id, o, nowMs);
  }

  ghost predicate SafeStartsFrom(run: seq<Sys>, acts: seq<Step>, n: nat, id: string)
    requires |run| == |acts| + 1
  {
    forall k :: n <= k < |acts| ==> SafeStart(run[k], acts[k], id)
  }

  /** However the run goes on, with no further unsafe start, `id` is announced at most once. */
  ghost predicate StaysAnnouncedOnce(run: seq<Sys>, acts: seq<Step>, id: string) {
    forall run', acts' :: Extends(run, acts, run', acts') && SafeStartsFrom(run', acts', |acts|, id) ==>
      AnnouncedOnce(run', acts', id)
  }

  /**
   * Whether a relay may be started, up to now no start having been unsafe: the job is announced at most once
   * on every continuation if and only if no other relay holds it with its row running.
   */
  lemma SafeStartExactly(run: seq<Sys>, acts: seq<Step>, q: nat, id: string, nowMs: int)
    requires IsRun(run, acts) && SafeStarts(run, acts, id) && q !in run[|acts|].relays
    ensures IsRun(run + [Apply(run[|acts|], Boot(q, nowMs))], acts + [Boot(q, nowMs)])
    ensures StaysAnnouncedOnce(run + [Apply(run[|acts|], Boot(q, nowMs))], acts + [Boot(q, nowMs)], id)
       <==> !(id in RunningIds(run[|acts|].table) && HeldSomewhere(run[|acts|], id))
  {
    var n, boot := |acts|, Boot(q, nowMs);
    var run1, acts1 := LongerRun(run, acts, boot);
    if id in RunningIds(run[n].table) && HeldSomewhere(run[n], id) {
      var run', acts' := UnsafeStartAnnouncesTwice(run, acts, q, id, Outcome(true, None, None), nowMs);
      assert run'[n + 1] == Apply(run'[n], acts'[n]);
      assert Extends(run1, acts1, run', acts');
      assert SafeStartsFrom(run', acts', n + 1, id);
      assert !AnnouncedOnce(run', acts', id);
    } else {
      forall run', acts' | Extends(run1, acts1, run', acts') && SafeStartsFrom(run', acts', n + 1, id)
        ensures AnnouncedOnce(run', acts', id)
      {
        SafeStartsTogether(run, acts, run', acts', boot, id);
        AtMostOnceWithSafeStarts(run', acts', id);
      }
    }
  }

  lemma SafeStartsTogether(
    run: seq<Sys>, acts: seq<Step>, run': seq<Sys>, acts': seq<Step>, boot: Step, id: string)
    requires IsRun(run, acts) && SafeStarts(run, acts, id) && SafeStart(run[|acts|], boot, id)
    requires IsRun(run', acts') && run <= run' && acts + [boot] <= acts'
    requires SafeStartsFrom(run', acts', |acts| + 1, id)
    ensures SafeStarts(run', acts', id)
  {
    forall k | 0 <= k < |acts'| ensures SafeStart(run'[k], acts'[k], id) {
      if k < |acts| {
        assert run'[k] == run[k] && acts'[k] == (acts + [boot])[k] == acts[k];
        assert SafeStart(run[k], acts[k], id);
      } else if k == |acts| {
        assert run'[k] == run[k] && acts'[k] == (acts + [boot])[k];
      }
    }
  }

  // ----- The four ways of losing an announcement, each from any run on which a relay runs a job

  ghost predicate Runs(run: seq<Sys>, acts: seq<Step>, r: nat, id: string) {
    IsRun(run, acts) && Ready(run[|acts|], r) && id in run[|acts|].relays[r].inFlight
    && id in RunningIds(run[|acts|].table)
  }

  /** Cancelled while in flight, and the relay crashes before the executor settles. */
  lemma LostToCrashAfterCancel(run: seq<Sys>, acts: seq<Step>, r: nat, id: string, nowMs: int)
    returns (run': seq<Sys>, acts': seq<Step>)
    requires Runs(run, acts, r, id)
    ensures IsRun(run', acts') && acts' == acts + [Cancel(id, nowMs), Crash(r)]
    ensures Loses(run'[|acts| + 1], Crash(r), id)
  {
    run', acts' := LongerRun(run, acts, Cancel(id, nowMs));
    run', acts' := LongerRun(run', acts', Crash(r));
  }

  /** The relay crashes, and before the next one starts the job is cancelled. */
  lemma LostToCancelAfterCrash(run: seq<Sys>, acts: seq<Step>, r: nat, id: string, nowMs: int)
    returns (run': seq<Sys>, acts': seq<Step>)
    requires Runs(run, acts, r, id)
    ensures IsRun(run', acts') && acts' == acts + [Crash(r), Cancel(id, nowMs)]
    ensures Loses(run'[|acts| + 1], Cancel(id, nowMs), id)
  {
    InvOnRun(run, acts, |acts|);
    assert id in Held(run[|acts|].relays[r]);
    run', acts' := LongerRun(run, acts, Crash(r));
    run', acts' := LongerRun(run', acts', Cancel(id, nowMs));
  }

  /** Cancelled while in flight, and pruned before the executor settles. */
  lemma LostToPruneBeforeCheck(run: seq<Sys>, acts: seq<Step>, r: nat, id: string, o: Outcome, nowMs: int)
    returns (run': seq<Sys>, acts': seq<Step>)
    requires Runs(run, acts, r, id)
    ensures IsRun(run', acts') && acts' == acts + [Cancel(id, nowMs), Prune(nowMs + 1), Settle(r, id, o)]
    ensures Loses(run'[|acts| + 2], Settle(r, id, o), id)
  {
    run', acts' := LongerRun(run, acts, Cancel(id, nowMs));
    run', acts' := LongerRun(run', acts', Prune(nowMs + 1));
    run', acts' := LongerRun(run', acts', Settle(r, id, o));
  }

  /** Completed, and pruned before the row is read back. */
  lemma LostToPruneBeforeReread(run: seq<Sys>, acts: seq<Step>, r: nat, id: string, o: Outcome, nowMs: int)
    returns (run': seq<Sys>, acts': seq<Step>)
    requires Runs(run, acts, r, id)
    ensures IsRun(run', acts')
    ensures acts' == acts + [Settle(r, id, o), Write(r, nowMs), Prune(nowMs + 1), Reread(r)]
    ensures Loses(run'[|acts| + 3], Reread(r), id)
  {
    run', acts' := CompletedButNotRead(run, acts, r, id, o, nowMs);
    run', acts' := LongerRun(run', acts', Prune(nowMs + 1));
    run', acts' := LongerRun(run', acts', Reread(r));
  }

  lemma CompletedButNotRead(run: seq<Sys>, acts: seq<Step>, r: nat, id: string, o: Outcome, nowMs: int)
    returns (run': seq<Sys>, acts': seq<Step>)
    requires Runs(run, acts, r, id)
    ensures IsRun(run', acts') && acts' == acts + [Settle(r, id, o), Write(r, nowMs)]
    ensures var s := run'[|acts'|];
            && IsLive(s, r) && s.relays[r].phase == Written(id)
            && id in s.table && IsTerminal(s.table[id].status) && s.table[id].completedAt == Some(nowMs)
  {
    run', acts' := LongerRun(run, acts, Settle(r, id, o));
    run', acts' := LongerRun(run', acts', Write(r, nowMs));
  }

  // ----- A run on which a relay runs a job

  const SPEC := JobSpec("operator", None, None, "READ_ONLY", "nightly report", None, Some("{}"))
  const ROW := FreshJob("bg-1", "0a1b2c3d", SPEC, 1000)

  const EMPTY := Sys(map[], {}, {}, map[], 0)
  const CREATED := Sys(map["bg-1" := ROW], {"bg-1"}, {}, map[], 1000)
  const BOOTED := CREATED.(relays := map[0 := Booted], clock := 2000)
  const LAUNCHED := BOOTED.(relays := map[0 := Live(4, {}, false, Idle)])
  const RUNNING :=
    Sys(map["bg-1" := ClaimedRow(ROW, 3000)], {"bg-1"}, {}, map[0 := Live(4, {"bg-1"}, false, Idle)], 3000)

  const CREATE := Create("bg-1", ["0a1b2c3d"], SPEC, 1000)
  const TICK := Tick(0, 3000, ["bg-1"])

  lemma CreateIt()
    ensures Enabled(EMPTY, CREATE) && Apply(EMPTY, CREATE) == CREATED
  {
    assert FirstFree(ShortIds(EMPTY.table), ["0a1b2c3d"]) == Some("0a1b2c3d");
  }

  lemma BootAndLaunch()
    ensures Enabled(CREATED, Boot(0, 2000)) && Apply(CREATED, Boot(0, 2000)) == BOOTED
    ensures Enabled(BOOTED, Launch(0, None)) && Apply(BOOTED, Launch(0, None)) == LAUNCHED
  {
    assert InterruptedTable(CREATED.table, 2000, RESTART_REASON) == CREATED.table;
  }

  lemma OnlyOneQueued(t: Table, id: string, limit: nat)
    requires QueuedIds(t) == {id} && limit >= 1
    ensures OldestQueued(t, limit, [id]) && IdSet([id]) == {id}
  {
  }

  ghost predicate OneJobWaits(s: Sys, r: nat, max: nat, row: Job) {
    && s.table == map[row.id := row] && row.status == Queued && s.ever == {row.id} && s.pruned == {}
    && s.relays == map[r := Live(max, {}, false, Idle)] && max >= 1
  }

  lemma ClaimIsEnabled(s: Sys, r: nat, max: nat, row: Job, nowMs: int)
    requires OneJobWaits(s, r, max, row)
    ensures Enabled(s, Tick(r, nowMs, [row.id]))
  {
    assert QueuedIds(s.table) == {row.id};
    OnlyOneQueued(s.table, row.id, SlotLimit(s.relays[r]));
  }

  lemma ClaimedOnly(s: Sys, r: nat, max: nat, row: Job, nowMs: int)
    requires OneJobWaits(s, r, max, row)
    ensures NextTable(s, Tick(r, nowMs, [row.id])) == map[row.id := ClaimedRow(row, nowMs)]
  {
  }

  /** An idle relay that polls a table of one queued row claims it. */
  lemma ClaimOnly(s: Sys, r: nat, max: nat, row: Job, nowMs: int)
    requires OneJobWaits(s, r, max, row) && Enabled(s, Tick(r, nowMs, [row.id]))
    ensures Apply(s, Tick(r, nowMs, [row.id]))
         == Sys(map[row.id := ClaimedRow(row, nowMs)], {row.id}, {}, map[r := Live(max, {row.id}, false, Idle)], nowMs)
  {
    ClaimedOnly(s, r, max, row, nowMs);
    assert IdSet([row.id]) == {row.id};
    assert {} + {row.id} == {row.id};
  }

  lemma ClaimIt()
    ensures Enabled(LAUNCHED, TICK) && Apply(LAUNCHED, TICK) == RUNNING
  {
    ClaimIsEnabled(LAUNCHED, 0, 4, ROW, 3000);
    ClaimOnly(LAUNCHED, 0, 4, ROW, 3000);
  }

  lemma FourSteps(s: seq<Sys>, acts: seq<Step>)
    requires |s| == 5 && |acts| == 4 && Init(s[0])
    requires Enabled(s[0], acts[0]) && s[1] == Apply(s[0], acts[0])
    requires Enabled(s[1], acts[1]) && s[2] == Apply(s[1], acts[1])
    requires Enabled(s[2], acts[2]) && s[3] == Apply(s[2], acts[2])
    requires Enabled(s[3], acts[3]) && s[4] == Apply(s[3], acts[3])
    ensures IsRun(s, acts)
  {
  }

  lemma ItRuns()
    ensures Ready(RUNNING, 0) && "bg-1" in RUNNING.relays[0].inFlight && "bg-1" in RunningIds(RUNNING.table)
  {
  }

  lemma SomeRelayRunsAJob() returns (run: seq<Sys>, acts: seq<Step>)
    ensures Runs(run, acts, 0, "bg-1") && run[|acts|] == RUNNING
    ensures acts == [CREATE, Boot(0, 2000), Launch(0, None), TICK]
  {
    CreateIt();
    BootAndLaunch();
    ClaimIt();
    ItRuns();
    run := [EMPTY, CREATED, BOOTED, LAUNCHED, RUNNING];
    acts := [CREATE, Boot(0, 2000), Launch(0, None), TICK];
    FourSteps(run, acts);
  }

  /** That run, continued by the start of a second relay: the job is announced as interrupted and once more. */
  lemma ConcreteDoubleAnnouncement() returns (run: seq<Sys>, acts: seq<Step>)
    ensures IsRun(run, acts)
    ensures acts == [CREATE, Boot(0, 2000), Launch(0, None), TICK, Boot(1, 4000),
                     Settle(0, "bg-1", Outcome(true, None, None))]
    ensures Notifies(run[4], acts[4], "bg-1") && Notifies(run[5], acts[5], "bg-1")
  {
    var front, steps := SomeRelayRunsAJob();
    run, acts := LongerRun(front, steps, Boot(1, 4000));
    assert run[4] == RUNNING && Notifies(RUNNING, Boot(1, 4000), "bg-1");
    run, acts := LongerRun(run, acts, Settle(0, "bg-1", Outcome(true, None, None)));
  }
}

/**
 * The whole system as a state machine: one table, any number of relay processes each running a
 * poller, and CLI processes that create, cancel and prune. Each SQL statement or transaction of a
 * relay is one step, so the status check and the terminal write of a finishing job are separate steps
 * and any other process may write in between; within one relay nothing else runs until the hook is
 * called. A Create step bundles INSERT attempts that nobody interrupts, a Cancel step its read-back.
 */
module JobProtocol {
  import opened Options
  import opened JobTypes
  import opened JobTable
  import opened JobStore
  import opened BackgroundRunner

  /** Where the relay's event loop stands inside `runSingleJob` after an executor has settled. */
  datatype Phase =
    | Idle
    | Checked(id: string, outcome: Outcome)  // the check saw `running`; the terminal write comes next
    | Written(id: string)                    // the UPDATE is done; the row is read back next

  datatype Relay =
    | Booted  // the startup interruption has run, the runner has not started yet
    | Live(max: nat, inFlight: set<string>, stopped: bool, phase: Phase)

  /** `ever` and `pruned` record ids that were created and deleted; `clock` is the last time used. */
  datatype Sys = Sys(table: Table, ever: set<string>, pruned: set<string>, relays: map<nat, Relay>, clock: int)

  datatype Step =
    | Create(id: string, shortIds: seq<string>, spec: JobSpec, nowMs: int)
    | Cancel(id: string, nowMs: int)
    | Prune(cutoffMs: int)
    | Boot(relay: nat, nowMs: int)
    | Launch(relay: nat, maxJobs: Option<int>)
    | Tick(relay: nat, nowMs: int, ids: seq<string>)
    | Settle(relay: nat, id: string, outcome: Outcome)
    | Write(relay: nat, nowMs: int)
    | Reread(relay: nat)
    | Stop(relay: nat)
    | Crash(relay: nat)

  // ----- The step relation

  predicate IsLive(s: Sys, r: nat) {
    r in s.relays && s.relays[r].Live?
  }

  /** The relay's event loop is between two turns. */
  predicate Ready(s: Sys, r: nat) {
    IsLive(s, r) && s.relays[r].phase == Idle
  }

  predicate HasSlot(relay: Relay) {
    relay.Live? && !relay.stopped && |relay.inFlight| < relay.max
  }

  function SlotLimit(relay: Relay): nat
    requires HasSlot(relay)
  {
    EffectiveLimit(relay.max - |relay.inFlight|)
  }

  ghost predicate Enabled(s: Sys, a: Step) {
    match a
    case Create(id, shortIds, _, _) => id !in s.ever && |shortIds| <= MAX_SHORT_ID_ATTEMPTS
    case Cancel(_, _) => true
    case Prune(_) => true
    case Boot(r, _) => r !in s.relays
    case Launch(r, _) => r in s.relays && s.relays[r] == Booted
    case Tick(r, _, ids) =>
      Ready(s, r) && if HasSlot(s.relays[r]) then OldestQueued(s.table, SlotLimit(s.relays[r]), ids) else ids == []
    case Settle(r, id, _) => Ready(s, r) && id in s.relays[r].inFlight
    case Write(r, _) => IsLive(s, r) && s.relays[r].phase.Checked?
    case Reread(r) => IsLive(s, r) && s.relays[r].phase.Written?
    case Stop(r) => Ready(s, r)
    case Crash(r) => r in s.relays
  }

  function NextTable(s: Sys, a: Step): Table {
    match a
    case Create(id, shortIds, spec, nowMs) => CreatedTable(s.table, CreateOutcome(s.table, id, shortIds, spec, nowMs))
    case Cancel(id, nowMs) => CancelledTable(s.table, id, nowMs)
    case Prune(cutoffMs) => PrunedTable(s.table, cutoffMs)
    case Boot(_, nowMs) => InterruptedTable(s.table, nowMs, RESTART_REASON)
    case Tick(_, nowMs, ids) => ClaimedTable(s.table, ids, nowMs)
    case Write(r, nowMs) =>
      if IsLive(s, r) && s.relays[r].phase.Checked?
      then CompletedTable(s.table, s.relays[r].phase.id, s.relays[r].phase.outcome, nowMs)
      else s.table
    case _ => s.table
  }

  /** After the status check: a job that is no longer running gets no terminal write. */
  function SettledRelay(t: Table, relay: Relay, id: string, outcome: Outcome): Relay
    requires relay.Live?
  {
    relay.(inFlight := relay.inFlight - {id},
           phase := if id in t && t[id].status == Running then Checked(id, outcome) else Idle)
  }

  function NextRelays(s: Sys, a: Step): map<nat, Relay>
    requires Enabled(s, a)
  {
    match a
    case Boot(r, _) => s.relays[r := Booted]
    case Launch(r, maxJobs) => s.relays[r := Live(MaxJobsPerTick(maxJobs), {}, false, Idle)]
    case Tick(r, _, ids) => s.relays[r := s.relays[r].(inFlight := s.relays[r].inFlight + IdSet(ids))]
    case Settle(r, id, outcome) => s.relays[r := SettledRelay(s.table, s.relays[r], id, outcome)]
    case Write(r, _) => s.relays[r := s.relays[r].(phase := Written(s.relays[r].phase.id))]
    case Reread(r) => s.relays[r := s.relays[r].(phase := Idle)]
    case Stop(r) => s.relays[r := s.relays[r].(stopped := true)]
    case Crash(r) => s.relays - {r}
    case _ => s.relays
  }

  function StepTime(a: Step): Option<int> {
    match a
    case Create(_, _, _, t) => Some(t)
    case Cancel(_, t) => Some(t)
    case Boot(_, t) => Some(t)
    case Tick(_, t, _) => Some(t)
    case Write(_, t) => Some(t)
    case _ => None
  }

  function Apply(s: Sys, a: Step): Sys
    requires Enabled(s, a)
  {
    var table := NextTable(s, a);
    Sys(table,
        s.ever + table.Keys,
        s.pruned + (s.table.Keys - table.Keys),
        NextRelays(s, a),
        if StepTime(a).Some? then StepTime(a).value else s.clock)
  }

  ghost predicate Init(s: Sys) {
    s.table == map[] && s.ever == {} && s.pruned == {} && s.relays == map[]
  }

  /** `run` is the sequence of states that the steps `acts` lead through. */
  ghost predicate IsRun(run: seq<Sys>, acts: seq<Step>) {
    && |run| == |acts| + 1
    && Init(run[0])
    && forall i :: 0 <= i < |acts| ==> Enabled(run[i], acts[i]) && run[i + 1] == Apply(run[i], acts[i])
  }

  // ----- What is reported

  /** The complete, cancel and interrupt calls that report a transition of `id`. */
  predicate Reports(s: Sys, a: Step, id: string) {
    match a
    case Cancel(target, _) => target == id && Cancels(s.table, id)
    case Boot(_, _) => id in RunningIds(s.table)
    case Write(r, _) =>
      IsLive(s, r) && s.relays[r].phase.Checked? && s.relays[r].phase.id == id && Completes(s.table, id)
    case _ => false
  }

  /** The claim that hands `id` to a runner. */
  predicate Claims(a: Step, id: string) {
    a.Tick? && id in a.ids
  }

  /** The record that the step passes to `onCompleted`. */
  function HookCall(s: Sys, a: Step): Option<Job> {
    match a
    case Settle(_, id, _) => if id in s.table && s.table[id].status != Running then Some(s.table[id]) else None
    case Reread(r) => if IsLive(s, r) && s.relays[r].phase.Written? then Lookup(s.table, s.relays[r].phase.id) else None
    case _ => None
  }

  // ----- Progress of one job: it only ever moves up this scale

  function StatusRank(st: Status): nat {
    match st
    case Queued => 1
    case Running => 2
    case _ => 3
  }

  function Rank(s: Sys, id: string): nat {
    if id in s.table then StatusRank(s.table[id].status)
    else if id in s.pruned then 4
    else 0
  }

  // ----- The invariant

  ghost predicate IdsOk(s: Sys) {
    WellFormed(s.table) && s.ever == s.table.Keys + s.pruned && s.table.Keys !! s.pruned
  }

  ghost predicate RowsOk(s: Sys) {
    forall id :: id in s.table ==> RowShape(s.table[id])
  }

  /** The jobs a relay process is responsible for. */
  function Held(relay: Relay): set<string> {
    if relay.Booted? then {}
    else relay.inFlight + (if relay.phase.Idle? then {} else {relay.phase.id})
  }

  ghost predicate HeldOk(s: Sys) {
    && (forall r, id :: r in s.relays && id in Held(s.relays[r]) ==> Rank(s, id) >= 2)
    && (forall r, q, id ::
          r in s.relays && q in s.relays && id in Held(s.relays[r]) && id in Held(s.relays[q]) ==> r == q)
  }

  ghost predicate RelayOk(t: Table, relay: Relay) {
    relay.Live? ==>
      && 1 <= relay.max && |relay.inFlight| <= relay.max
      && (!relay.phase.Idle? ==> relay.phase.id !in relay.inFlight)
      && (relay.phase.Written? && relay.phase.id in t ==> IsTerminal(t[relay.phase.id].status))
  }

  ghost predicate RelaysOk(s: Sys) {
    forall r :: r in s.relays ==> RelayOk(s.table, s.relays[r])
  }

  ghost predicate Inv(s: Sys) {
    IdsOk(s) && RowsOk(s) && HeldOk(s) && RelaysOk(s)
  }

  // ----- One step

  /** No statement moves a row back; a row whose rank stays put is not written at all. */
  lemma RankNeverFalls(s: Sys, a: Step, id: string)
    requires IdsOk(s) && Enabled(s, a)
    ensures Rank(s, id) <= Rank(Apply(s, a), id)
    ensures Rank(s, id) == Rank(Apply(s, a), id) && id in s.table ==> Apply(s, a).table[id] == s.table[id]
  {
  }

  lemma KeyColumnsStep(s: Sys, a: Step)
    requires Enabled(s, a) && !a.Create?
    ensures SameKeyColumns(s.table, Apply(s, a).table)
  {
  }

  lemma IdsStep(s: Sys, a: Step)
    requires IdsOk(s) && Enabled(s, a)
    ensures IdsOk(Apply(s, a))
  {
    var t' := NextTable(s, a);
    if a.Create? {
      CreatedExactly(s.table, a.id, a.shortIds, a.spec, a.nowMs);
    } else {
      KeyColumnsStep(s, a);
      KeyColumnsKept(s.table, t');
    }
  }

  lemma RowsStep(s: Sys, a: Step)
    requires RowsOk(s) && Enabled(s, a)
    ensures RowsOk(Apply(s, a))
  {
  }

  /** A claim of queued rows cannot overlap what any relay holds. */
  lemma ClaimedAreUnheld(s: Sys, a: Step, r: nat, id: string)
    requires HeldOk(s) && Enabled(s, a) && a.Tick? && r in s.relays && id in a.ids
    ensures id !in Held(s.relays[r]) && Rank(s, id) == 1
  {
    assert id in QueuedIds(s.table);
    assert id in Held(s.relays[r]) ==> Rank(s, id) >= 2;
  }

  lemma HeldAfter(s: Sys, a: Step, r: nat, id: string)
    requires HeldOk(s) && Enabled(s, a)
    requires r in Apply(s, a).relays && id in Held(Apply(s, a).relays[r])
    ensures r in s.relays && (id in Held(s.relays[r]) || (a.Tick? && a.relay == r && id in a.ids))
  {
  }

  lemma HeldStep(s: Sys, a: Step)
    requires IdsOk(s) && HeldOk(s) && Enabled(s, a)
    ensures HeldOk(Apply(s, a))
  {
    var s' := Apply(s, a);
    forall r, id | r in s'.relays && id in Held(s'.relays[r]) ensures Rank(s', id) >= 2 {
      HeldAfter(s, a, r, id);
      RankNeverFalls(s, a, id);
      if a.Tick? && id in a.ids {
        ClaimedAreUnheld(s, a, r, id);
      }
    }
    forall r, q, id |
      r in s'.relays && q in s'.relays && id in Held(s'.relays[r]) && id in Held(s'.relays[q])
      ensures r == q
    {
      HeldAfter(s, a, r, id);
      HeldAfter(s, a, q, id);
      if a.Tick? && id in a.ids {
        ClaimedAreUnheld(s, a, r, id);
        ClaimedAreUnheld(s, a, q, id);
      }
    }
  }

  lemma TickRelay(s: Sys, a: Step)
    requires HeldOk(s) && RelaysOk(s) && Enabled(s, a) && a.Tick?
    ensures RelayOk(Apply(s, a).table, Apply(s, a).relays[a.relay])
  {
    var relay := s.relays[a.relay];
    DistinctCount(a.ids);
    assert RelayOk(s.table, relay);
    assert |relay.inFlight + IdSet(a.ids)| <= |relay.inFlight| + |IdSet(a.ids)|;
  }

  lemma OtherRelayStep(s: Sys, a: Step, r: nat)
    requires IdsOk(s) && HeldOk(s) && RelaysOk(s) && Enabled(s, a) && r in Apply(s, a).relays
    requires !(a.Tick? && r == a.relay)
    ensures RelayOk(Apply(s, a).table, Apply(s, a).relays[r])
  {
    if r in s.relays {
      assert RelayOk(s.table, s.relays[r]);
      if Apply(s, a).relays[r].Live? && Apply(s, a).relays[r].phase.Written? {
        RankNeverFalls(s, a, Apply(s, a).relays[r].phase.id);
      }
    }
  }

  lemma RelaysStep(s: Sys, a: Step)
    requires IdsOk(s) && HeldOk(s) && RelaysOk(s) && Enabled(s, a)
    ensures RelaysOk(Apply(s, a))
  {
    forall r | r in Apply(s, a).relays ensures RelayOk(Apply(s, a).table, Apply(s, a).relays[r]) {
      if a.Tick? && r == a.relay {
        TickRelay(s, a);
      } else {
        OtherRelayStep(s, a, r);
      }
    }
  }

  /** Every step keeps the invariant. */
  lemma InvStep(s: Sys, a: Step)
    requires Inv(s) && Enabled(s, a)
    ensures Inv(Apply(s, a))
  {
    IdsStep(s, a);
    RowsStep(s, a);
    HeldStep(s, a);
    RelaysStep(s, a);
  }

  /** A report of a transition is exactly the step from an active to a terminal status. */
  lemma ReportsExactly(s: Sys, a: Step, id: string)
    requires IdsOk(s) && Enabled(s, a)
    ensures Reports(s, a, id) <==> 1 <= Rank(s, id) <= 2 && Rank(Apply(s, a), id) == 3
  {
  }

  /** A claim is exactly the step from `queued` to `running`. */
  lemma ClaimsExactly(s: Sys, a: Step, id: string)
    requires IdsOk(s) && Enabled(s, a)
    ensures Claims(a, id) <==> Rank(s, id) == 1 && Rank(Apply(s, a), id) == 2
  {
  }

  ghost predicate HeldSomewhere(s: Sys, id: string) {
    exists r :: r in s.relays && id in Held(s.relays[r])
  }

  /** The hook gets a terminal record of a job its relay held, and nobody holds that job afterwards. */
  lemma HookStep(s: Sys, a: Step)
    requires Inv(s) && Enabled(s, a) && HookCall(s, a).Some?
    ensures var job := HookCall(s, a).value;
            && IsTerminal(job.status)
            && Lookup(Apply(s, a).table, job.id) == Some(job)
            && HeldSomewhere(s, job.id)
            && !HeldSomewhere(Apply(s, a), job.id)
  {
    var job := HookCall(s, a).value;
    assert RelayOk(s.table, s.relays[a.relay]);
    assert job.id in Held(s.relays[a.relay]);
    assert Rank(s, job.id) >= 2;
  }

  /** Once a claimed job is released no relay ever holds it again. */
  lemma ReleaseIsFinal(s: Sys, a: Step, id: string)
    requires Inv(s) && Enabled(s, a) && Rank(s, id) >= 2 && !HeldSomewhere(s, id)
    ensures Rank(Apply(s, a), id) >= 2 && !HeldSomewhere(Apply(s, a), id)
  {
    RankNeverFalls(s, a, id);
    ClaimsExactly(s, a, id);
    if HeldSomewhere(Apply(s, a), id) {
      var r :| r in Apply(s, a).relays && id in Held(Apply(s, a).relays[r]);
      HeldAfter(s, a, r, id);
    }
  }

  /** With a clock that does not run backwards, created <= started <= completed. */
  ghost predicate TimesOk(s: Sys) {
    forall id :: id in s.table ==> RowTimes(s.table[id], s.clock)
  }

  ghost predicate ClockForward(s: Sys, a: Step) {
    StepTime(a).Some? ==> s.clock <= StepTime(a).value
  }

  lemma RowTimesStep(s: Sys, a: Step, id: string)
    requires Enabled(s, a) && ClockForward(s, a) && id in Apply(s, a).table
    requires id in s.table ==> RowShape(s.table[id]) && RowTimes(s.table[id], s.clock)
    ensures RowTimes(Apply(s, a).table[id], Apply(s, a).clock)
  {
  }

  lemma TimesStep(s: Sys, a: Step)
    requires RowsOk(s) && TimesOk(s) && Enabled(s, a) && ClockForward(s, a)
    ensures TimesOk(Apply(s, a))
  {
    forall id | id in Apply(s, a).table ensures RowTimes(Apply(s, a).table[id], Apply(s, a).clock) {
      RowTimesStep(s, a, id);
    }
  }
}

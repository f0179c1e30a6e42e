/** The campaign supervisor of tools/arvp_campaign_supervisor.py: one state per polling cycle, a log
    that gains an entry per cycle, and an exit code. */
module Supervisor {
  import opened Wrappers
  import opened ChainDetector

  datatype Counts = Counts(everywhere: Option<int>, ofBot: Option<int>, ofStrategy: Option<int>)

  datatype ProbeName = Host | Docker | Safety | DbReadonly | Candles | CorrelationLedger | OtherProbe(name: string)
  datatype ProbeStatus = StatusOk | StatusBlocked | OtherStatus

  /** A probe result; the evidence fields a probe does not report are empty. */
  datatype Probe = Probe(
    name: ProbeName, status: ProbeStatus, counts: Counts, events: Evidence,
    sleepWake: seq<string>, uptime: Option<int>)

  /** An empty id counts as absent. `timeout` is None where it is absent or cannot be compared. */
  datatype Campaign = Campaign(botId: string, strategyId: string, timeout: Option<int>)

  datatype State =
    | Running | ChainFound | TimeoutNoChain | Interrupted
    | BlockedRuntime | BlockedDbReadonly | BlockedGovernance

  function ExitCode(s: State): int {
    match s
    case Running => 0
    case ChainFound => 10
    case TimeoutNoChain => 20
    case Interrupted => 30
    case BlockedRuntime => 40
    case BlockedDbReadonly => 41
    case BlockedGovernance => 42
  }

  datatype Entry = Entry(cycle: nat, state: State, laneCount: Option<int>, chain: Option<Detection>)

  /** What the probes reported in one cycle, and the clock then. */
  datatype Observation = Observation(probes: seq<Probe>, now: int)

  // ---- One cycle ----

  function FindProbe(probes: seq<Probe>, name: ProbeName): Option<Probe> {
    if probes == [] then None
    else if probes[0].name == name then Some(probes[0])
    else FindProbe(probes[1..], name)
  }

  /** The first probe of that name answers, and None means there is none. */
  lemma {:induction false} FirstNamed(probes: seq<Probe>, name: ProbeName) returns (i: nat)
    ensures FindProbe(probes, name).None? <==> i == |probes|
    ensures i <= |probes| && forall j :: 0 <= j < i ==> probes[j].name != name
    ensures i < |probes| ==> FindProbe(probes, name) == Some(probes[i]) && probes[i].name == name
  {
    i := 0;
    if probes != [] && probes[0].name != name {
      i := FirstNamed(probes[1..], name);
      i := i + 1;
      forall j | 0 < j < i ensures probes[j].name != name { assert probes[j] == probes[1..][j - 1]; }
    }
  }

  predicate Blocked(probes: seq<Probe>, name: ProbeName) {
    var p := FindProbe(probes, name);
    p.Some? && p.value.status == StatusBlocked
  }

  function ActivityCount(c: Counts, campaign: Campaign): Option<int> {
    if campaign.botId != "" && c.ofBot.Some? then c.ofBot
    else if campaign.strategyId != "" && c.ofStrategy.Some? then c.ofStrategy
    else c.everywhere
  }

  /** A usable ledger probe whose count, where one is known, is positive. */
  predicate Active(probes: seq<Probe>, campaign: Campaign) {
    var ledger := FindProbe(probes, CorrelationLedger);
    && ledger.Some? && ledger.value.status == StatusOk
    && var count := ActivityCount(ledger.value.counts, campaign);
       count.Some? ==> count.value > 0
  }

  function LedgerEvents(probes: seq<Probe>): Evidence {
    var ledger := FindProbe(probes, CorrelationLedger);
    if ledger.Some? then ledger.value.events else Evidence([], [])
  }

  predicate Detects(probes: seq<Probe>, campaign: Campaign) {
    Active(probes, campaign) && Classify(LedgerEvents(probes)) == "complete_chain"
  }

  /** Reading the ledger's events raises. */
  predicate Unusable(probes: seq<Probe>, campaign: Campaign) {
    Active(probes, campaign) && !TypesReadable(LedgerEvents(probes))
  }

  ghost function ChainOf(probes: seq<Probe>, campaign: Campaign): Option<Detection> {
    if Detects(probes, campaign) then Some(DetectionOf(LedgerEvents(probes))) else None
  }

  /** The outer None where the detector raises. */
  method DetectChain(probes: seq<Probe>, campaign: Campaign) returns (r: Option<Option<Detection>>)
    ensures r == if Unusable(probes, campaign) then None else Some(ChainOf(probes, campaign))
  {
    var ledger := FindProbe(probes, CorrelationLedger);
    if ledger.None? || ledger.value.status != StatusOk { return Some(None); }
    var count := ActivityCount(ledger.value.counts, campaign);
    if count.Some? && count.value <= 0 { return Some(None); }
    var d := Detect(ledger.value.events);
    if d.None? { return None; }
    r := Some(if d.value.status == "complete_chain" then Some(d.value) else None);
  }

  predicate Interruption(probes: seq<Probe>) {
    var host := FindProbe(probes, Host);
    && host.Some? && host.value.status == StatusOk
    && (|| (exists i :: i in host.value.sleepWake && i != "none detected")
        || (host.value.uptime.Some? && host.value.uptime.value < 3600))
  }

  predicate TimedOut(campaign: Campaign, now: int) {
    campaign.timeout.Some? && now >= campaign.timeout.value
  }

  predicate RuntimeBlocked(probes: seq<Probe>) { Blocked(probes, Docker) || Blocked(probes, Safety) }

  predicate DataBlocked(probes: seq<Probe>) {
    Blocked(probes, DbReadonly) || Blocked(probes, Candles) || Blocked(probes, CorrelationLedger)
  }

  /** The state a cycle reports: blocks first, then a chain, then an interruption, then the clock.
      None where the detector raises. */
  ghost function StateOf(campaign: Campaign, o: Observation): Option<State> {
    if RuntimeBlocked(o.probes) then Some(BlockedRuntime)
    else if DataBlocked(o.probes) then Some(BlockedDbReadonly)
    else if Unusable(o.probes, campaign) then None
    else if Detects(o.probes, campaign) then Some(ChainFound)
    else if Interruption(o.probes) then Some(Interrupted)
    else if TimedOut(campaign, o.now) then Some(TimeoutNoChain)
    else Some(Running)
  }

  /** `evaluate_state`. Its last blocking branch asks again what the first one has answered, so
      the governance state is never returned. */
  method EvaluateState(campaign: Campaign, o: Observation) returns (s: Option<State>)
    ensures s == StateOf(campaign, o)
    ensures s != Some(BlockedGovernance)
  {
    if Blocked(o.probes, Docker) || Blocked(o.probes, Safety) { return Some(BlockedRuntime); }
    if Blocked(o.probes, DbReadonly) || Blocked(o.probes, Candles) || Blocked(o.probes, CorrelationLedger) {
      return Some(BlockedDbReadonly);
    }
    var safety := FindProbe(o.probes, Safety);
    if safety.Some? && safety.value.status == StatusBlocked { assert false; }
    var chain := DetectChain(o.probes, campaign);
    if chain.None? { return None; }
    if chain.value.Some? { return Some(ChainFound); }
    if Interruption(o.probes) { return Some(Interrupted); }
    if TimedOut(campaign, o.now) { return Some(TimeoutNoChain); }
    s := Some(Running);
  }

  function LaneCount(probes: seq<Probe>, campaign: Campaign): Option<int> {
    var ledger := FindProbe(probes, CorrelationLedger);
    if ledger.Some? then ActivityCount(ledger.value.counts, campaign) else None
  }

  /** What a cycle logs. None where the detector raises: it is asked again here, whatever the
      state. */
  ghost function EntryOf(cycle: nat, campaign: Campaign, o: Observation): Option<Entry> {
    if StateOf(campaign, o).None? || Unusable(o.probes, campaign) then None
    else Some(Entry(cycle, StateOf(campaign, o).value, LaneCount(o.probes, campaign), ChainOf(o.probes, campaign)))
  }

  method RunCycle(cycle: nat, campaign: Campaign, o: Observation) returns (e: Option<Entry>)
    ensures e == EntryOf(cycle, campaign, o)
  {
    var state := EvaluateState(campaign, o);
    if state.None? { return None; }
    var chain := DetectChain(o.probes, campaign);
    if chain.None? { return None; }
    e := Some(Entry(cycle, state.value, LaneCount(o.probes, campaign), chain.value));
  }

  // ---- The polling loop ----

  /** `StillPolling`: the observations given here end before the loop does. */
  datatype Outcome = Exit(code: int) | Raised | StillPolling

  /** What each cycle would log. */
  ghost function CyclesOf(campaign: Campaign, world: seq<Observation>): (r: seq<Option<Entry>>)
    ensures |r| == |world|
    ensures forall k :: 0 <= k < |r| ==> r[k] == EntryOf(k + 1, campaign, world[k])
  {
    seq(|world|, k requires 0 <= k < |world| => EntryOf(k + 1, campaign, world[k]))
  }

  /** The entries written and the outcome, once `done` cycles are over. */
  ghost function Poll(cycles: seq<Option<Entry>>, maxCycles: Option<int>, once: bool,
      done: nat): (r: (seq<Entry>, Outcome))
    requires done <= |cycles|
    decreases |cycles| - done
  {
    if maxCycles.Some? && done + 1 > maxCycles.value then ([], Exit(0))
    else if done == |cycles| then ([], StillPolling)
    else
      match cycles[done]
      case None => ([], Raised)
      case Some(e) =>
        if e.state != Running then ([e], Exit(ExitCode(e.state)))
        else if once then ([e], Exit(0))
        else
          var rest := Poll(cycles, maxCycles, once, done + 1);
          ([e] + rest.0, rest.1)
  }

  /** The JSONL log, which is only ever appended to, and the status page, which each cycle
      replaces. */
  class Reports {
    var entries: seq<Entry>
    var page: Option<Entry>

    constructor (entries: seq<Entry>, page: Option<Entry>)
      ensures this.entries == entries && this.page == page
    {
      this.entries, this.page := entries, page;
    }

    method Report(e: Entry, log: bool, status: bool)
      modifies this
      ensures entries == old(entries) + Logged([e], log)
      ensures page == Shown([e], status, old(page))
    {
      if log { entries := entries + [e]; }
      if status { page := Some(e); }
    }

    method RunLoop(campaign: Campaign, world: seq<Observation>, maxCycles: Option<int>, once: bool,
                   dryRun: bool, jsonl: bool, statusPage: bool) returns (outcome: Outcome)
      modifies this
      ensures outcome == Poll(CyclesOf(campaign, world), maxCycles, once, 0).1
      ensures entries == old(entries) + Logged(Poll(CyclesOf(campaign, world), maxCycles, once, 0).0, jsonl && !dryRun)
      ensures page == Shown(Poll(CyclesOf(campaign, world), maxCycles, once, 0).0, statusPage && !dryRun, old(page))
    {
      var done := 0;
      ghost var cycles := CyclesOf(campaign, world);
      ghost var sofar: seq<Entry> := [];
      assert sofar + Poll(cycles, maxCycles, once, 0).0 == Poll(cycles, maxCycles, once, 0).0;
      while true
        invariant done <= |world| && Continues(cycles, maxCycles, once, sofar, done)
        invariant entries == old(entries) + Logged(sofar, jsonl && !dryRun)
        invariant page == Shown(sofar, statusPage && !dryRun, old(page))
        decreases |world| - done
      {
        ContinuesEnd(cycles, maxCycles, once, sofar, done);
        if maxCycles.Some? && done + 1 > maxCycles.value { return Exit(0); }
        if done == |world| { return StillPolling; }
        var entry := RunCycle(done + 1, campaign, world[done]);
        if entry.None? { return Raised; }
        Report(entry.value, jsonl && !dryRun, statusPage && !dryRun);
        ContinuesStep(cycles, maxCycles, once, sofar, done);
        WrittenLater(old(entries), old(page), sofar, entry.value);
        sofar := sofar + [entry.value];
        if entry.value.state != Running { return Exit(ExitCode(entry.value.state)); }
        if once { return Exit(0); }
        done := done + 1;
      }
    }
  }

  function Logged(written: seq<Entry>, log: bool): seq<Entry> { if log then written else [] }

  function Shown(written: seq<Entry>, status: bool, before: Option<Entry>): Option<Entry> {
    if status && written != [] then Some(written[|written| - 1]) else before
  }

  lemma WrittenLater(entries: seq<Entry>, page: Option<Entry>, sofar: seq<Entry>, e: Entry)
    ensures forall log :: entries + Logged(sofar, log) + Logged([e], log) == entries + Logged(sofar + [e], log)
    ensures forall status :: Shown([e], status, Shown(sofar, status, page)) == Shown(sofar + [e], status, page)
  {
    assert entries + sofar + [e] == entries + (sofar + [e]);
    assert entries + [] + [] == entries + [];
  }

  /** The run writes `sofar` and then does what remains after `done` cycles. */
  ghost predicate Continues(cycles: seq<Option<Entry>>, maxCycles: Option<int>, once: bool, sofar: seq<Entry>,
      done: nat)
    requires done <= |cycles|
  {
    var rest := Poll(cycles, maxCycles, once, done);
    Poll(cycles, maxCycles, once, 0) == (sofar + rest.0, rest.1)
  }

  lemma ContinuesEnd(cycles: seq<Option<Entry>>, maxCycles: Option<int>, once: bool, sofar: seq<Entry>, done: nat)
    requires done <= |cycles| && Continues(cycles, maxCycles, once, sofar, done)
    ensures Poll(cycles, maxCycles, once, done).0 == [] ==>
              Poll(cycles, maxCycles, once, 0) == (sofar, Poll(cycles, maxCycles, once, done).1)
  {
    assert sofar + [] == sofar;
  }

  lemma ContinuesStep(cycles: seq<Option<Entry>>, maxCycles: Option<int>, once: bool, sofar: seq<Entry>, done: nat)
    requires done < |cycles| && cycles[done].Some? && (maxCycles.Some? ==> done + 1 <= maxCycles.value)
    requires Continues(cycles, maxCycles, once, sofar, done)
    ensures var e := cycles[done].value;
            if e.state != Running then Poll(cycles, maxCycles, once, 0) == (sofar + [e], Exit(ExitCode(e.state)))
            else if once then Poll(cycles, maxCycles, once, 0) == (sofar + [e], Exit(0))
            else Continues(cycles, maxCycles, once, sofar + [e], done + 1)
  {
    var rest := Poll(cycles, maxCycles, once, done + 1).0;
    assert sofar + ([cycles[done].value] + rest) == sofar + [cycles[done].value] + rest;
  }

  // ---- Whole runs ----

  /** Every entry is the one its own cycle produced, in order; only the last can be anything but
      running. */
  lemma {:induction false} LogIsFaithful(cycles: seq<Option<Entry>>, maxCycles: Option<int>, once: bool, done: nat)
    requires done <= |cycles|
    ensures var log := Poll(cycles, maxCycles, once, done).0;
            && done + |log| <= |cycles|
            && (forall k :: 0 <= k < |log| ==> cycles[done + k] == Some(log[k]))
            && (forall k :: 0 <= k < |log| - 1 ==> log[k].state == Running)
    decreases |cycles| - done
  {
    var log := Poll(cycles, maxCycles, once, done).0;
    if |log| > 1 {
      LogIsFaithful(cycles, maxCycles, once, done + 1);
      assert log[1..] == Poll(cycles, maxCycles, once, done + 1).0;
      forall k | 1 <= k < |log|
        ensures cycles[done + k] == Some(log[k]) && (k < |log| - 1 ==> log[k].state == Running)
      {
        assert log[k] == log[1..][k - 1] && (done + 1) + (k - 1) == done + k;
      }
    }
  }

  /** The exit code tells the log apart: zero exactly when no cycle left the running state, and
      otherwise the code of the last entry's state, which the code determines. Zero also means the
      run was cut short by `once` or by the bound. */
  lemma {:induction false} ExitCodeMatchesLog(cycles: seq<Option<Entry>>, maxCycles: Option<int>, once: bool, done: nat)
    requires done <= |cycles| && Poll(cycles, maxCycles, once, done).1.Exit?
    ensures var (log, outcome) := Poll(cycles, maxCycles, once, done);
            && (outcome.code == 0 <==> forall e :: e in log ==> e.state == Running)
            && (outcome.code == 0 ==> (once && log != []) || (maxCycles.Some? && done + |log| >= maxCycles.value))
            && (outcome.code != 0 ==>
                  log != [] && forall s :: ExitCode(s) == outcome.code <==> s == log[|log| - 1].state)
    decreases |cycles| - done
  {
    var (log, outcome) := Poll(cycles, maxCycles, once, done);
    if log != [] {
      var e := cycles[done].value;
      assert log[0] == e;
      if e.state == Running && !once {
        ExitCodeMatchesLog(cycles, maxCycles, once, done + 1);
        assert log == [e] + Poll(cycles, maxCycles, once, done + 1).0;
      } else {
        assert log == [e];
      }
    }
  }

  /** At most `max_cycles` cycles run, and at most one with `once`. */
  lemma {:induction false} CyclesBounded(cycles: seq<Option<Entry>>, maxCycles: Option<int>, once: bool, done: nat)
    requires done <= |cycles|
    ensures var (log, outcome) := Poll(cycles, maxCycles, once, done);
            && (once ==> |log| <= 1)
            && (maxCycles.Some? && done <= maxCycles.value ==> done + |log| <= maxCycles.value)
            && (maxCycles.Some? && maxCycles.value <= 0 ==> log == [] && outcome == Exit(0))
            && (outcome == StillPolling ==> done + |log| == |cycles|)
    decreases |cycles| - done
  {
    if done < |cycles| { CyclesBounded(cycles, maxCycles, once, done + 1); }
  }

  /** What later cycles observe never changes what is already logged, nor an outcome reached. */
  lemma {:induction false} LogOnlyGrows(
    cycles: seq<Option<Entry>>, more: seq<Option<Entry>>, maxCycles: Option<int>, once: bool, done: nat)
    requires done <= |cycles|
    ensures var before := Poll(cycles, maxCycles, once, done);
            var after := Poll(cycles + more, maxCycles, once, done);
            && before.0 <= after.0
            && (!before.1.StillPolling? ==> after == before)
    decreases |cycles| - done
  {
    if done < |cycles| {
      assert (cycles + more)[done] == cycles[done];
      LogOnlyGrows(cycles, more, maxCycles, once, done + 1);
    }
  }

  // ---- What a found chain means ----

  /** A found chain: nothing blocks, the count of the lane is positive where it is known, every
      event is well-formed and no step is missing; the entry then reports that chain, with distinct
      ids in time order, the earliest readable time, and the window it exports. */
  lemma ChainFoundSound(cycle: nat, campaign: Campaign, o: Observation)
    requires EntryOf(cycle, campaign, o).Some? && EntryOf(cycle, campaign, o).value.state == ChainFound
    ensures var entry := EntryOf(cycle, campaign, o).value;
            var ev := LedgerEvents(o.probes);
            && (forall name :: name in {Docker, Safety, DbReadonly, Candles, CorrelationLedger} ==>
                !Blocked(o.probes, name))
            && (entry.laneCount.Some? ==> entry.laneCount.value > 0)
            && (forall e :: e in ev.events ==> !Malformed(e))
            && entry.chain.Some?
            && var d := entry.chain.value;
               && d.missing == [] && d.malformedCount == 0
               && d.exportWindow == Some((d.first, d.last))
               && (d.first.Some? ==> forall e :: e in ev.events && e.stamp.At? ==> d.first.value <= e.stamp.t)
               && (d.eventIds.Some? ==> OrderedIds(ev.events, d.eventIds.value))
  {
    FoundCycle(cycle, campaign, o);
    FoundDetection(LedgerEvents(o.probes));
  }

  lemma FoundCycle(cycle: nat, campaign: Campaign, o: Observation)
    requires EntryOf(cycle, campaign, o).Some? && EntryOf(cycle, campaign, o).value.state == ChainFound
    ensures !RuntimeBlocked(o.probes) && !DataBlocked(o.probes)
    ensures var entry := EntryOf(cycle, campaign, o).value;
            && (entry.laneCount.Some? ==> entry.laneCount.value > 0)
            && Classify(LedgerEvents(o.probes)) == "complete_chain"
            && entry.chain == Some(DetectionOf(LedgerEvents(o.probes)))
  {
  }

  lemma FoundDetection(ev: Evidence)
    requires Classify(ev) == "complete_chain"
    ensures forall e :: e in ev.events ==> !Malformed(e)
    ensures var d := DetectionOf(ev);
            && d.missing == [] && d.malformedCount == 0
            && d.exportWindow == Some((d.first, d.last))
            && (d.first.Some? ==> forall e :: e in ev.events && e.stamp.At? ==> d.first.value <= e.stamp.t)
            && (d.eventIds.Some? ==> OrderedIds(ev.events, d.eventIds.value))
  {
    CompleteChainSound(ev);
    ReportedIds(ev);
    ReportedTimes(ev);
  }

  const GOOD_PROBE := Probe(CorrelationLedger, StatusOk, Counts(Some(4), None, None), Evidence(FOUR_EVENTS, []), [],
      None)

  /** Such cycles exist: a usable ledger probe with one event of each step. */
  lemma ChainIsFound(campaign: Campaign, now: int)
    ensures StateOf(campaign, Observation([GOOD_PROBE], now)) == Some(ChainFound)
    ensures EntryOf(1, campaign, Observation([GOOD_PROBE], now)).Some?
  {
    OnlyLedger();
    FourEventsComplete();
    assert Active([GOOD_PROBE], campaign) && LedgerEvents([GOOD_PROBE]) == Evidence(FOUR_EVENTS, []);
  }

  lemma OnlyLedger()
    ensures FindProbe([GOOD_PROBE], CorrelationLedger) == Some(GOOD_PROBE)
    ensures !RuntimeBlocked([GOOD_PROBE]) && !DataBlocked([GOOD_PROBE])
  {
    forall name | name != CorrelationLedger ensures FindProbe([GOOD_PROBE], name) == None {
      assert [GOOD_PROBE][1..] == [];
    }
  }

  /** Outside the two blocked states, an entry carries a chain exactly when its state is the found
      one; a blocked entry may carry one as well. */
  lemma ChainDetailsIff(cycle: nat, campaign: Campaign, o: Observation)
    requires EntryOf(cycle, campaign, o).Some?
    ensures var e := EntryOf(cycle, campaign, o).value;
            && (e.state == ChainFound ==> e.chain.Some?)
            && (e.chain.Some? ==> e.state in {ChainFound, BlockedRuntime, BlockedDbReadonly})
            && e.state != BlockedGovernance
            && (e.chain.Some? <==> Detects(o.probes, campaign))
  {
  }

  /** A logging run, from the observations to the log: one entry per cycle in order, each the entry
      of its own observation. */
  lemma LogFollowsWorld(campaign: Campaign, world: seq<Observation>, maxCycles: Option<int>, once: bool)
    ensures var log := Poll(CyclesOf(campaign, world), maxCycles, once, 0).0;
            && |log| <= |world|
            && (forall k :: 0 <= k < |log| ==> EntryOf(k + 1, campaign, world[k]) == Some(log[k]))
            && (forall k :: 0 <= k < |log| ==> log[k].cycle == k + 1)
  {
    var cycles := CyclesOf(campaign, world);
    var log := Poll(cycles, maxCycles, once, 0).0;
    LogIsFaithful(cycles, maxCycles, once, 0);
    forall k | 0 <= k < |log| ensures EntryOf(k + 1, campaign, world[k]) == Some(log[k]) && log[k].cycle == k + 1 {
      assert cycles[0 + k] == Some(log[k]);
    }
  }

  /** A run that exits with the chain code ends on a complete chain that no earlier cycle saw. */
  lemma ExitTenIsFirstChain(campaign: Campaign, world: seq<Observation>, maxCycles: Option<int>, once: bool)
    requires Poll(CyclesOf(campaign, world), maxCycles, once, 0).1 == Exit(10)
    ensures var n := |Poll(CyclesOf(campaign, world), maxCycles, once, 0).0|;
            && 0 < n <= |world|
            && Detects(world[n - 1].probes, campaign)
            && forall k :: 0 <= k < n - 1 ==> !Detects(world[k].probes, campaign)
  {
    var cycles := CyclesOf(campaign, world);
    var n := ExitTenLog(cycles, maxCycles, once);
    forall k | 0 <= k < n ensures Detects(world[k].probes, campaign) <==> k == n - 1 {
      StateTellsChain(k + 1, campaign, world[k]);
    }
  }

  lemma ExitTenLog(cycles: seq<Option<Entry>>, maxCycles: Option<int>, once: bool) returns (n: nat)
    requires Poll(cycles, maxCycles, once, 0).1 == Exit(10)
    ensures n == |Poll(cycles, maxCycles, once, 0).0| && 0 < n <= |cycles|
    ensures forall k :: 0 <= k < n ==>
              cycles[k].Some? && cycles[k].value.state == if k == n - 1 then ChainFound else Running
  {
    var log := Poll(cycles, maxCycles, once, 0).0;
    n := |log|;
    LogIsFaithful(cycles, maxCycles, once, 0);
    ExitCodeMatchesLog(cycles, maxCycles, once, 0);
    assert log[n - 1].state == ChainFound by { assert ExitCode(ChainFound) == 10; }
    forall k | 0 <= k < n ensures cycles[k] == Some(log[k]) { assert cycles[0 + k] == Some(log[k]); }
  }

  lemma StateTellsChain(cycle: nat, campaign: Campaign, o: Observation)
    requires EntryOf(cycle, campaign, o).Some?
    ensures EntryOf(cycle, campaign, o).value.state == ChainFound ==> Detects(o.probes, campaign)
    ensures EntryOf(cycle, campaign, o).value.state == Running ==> !Detects(o.probes, campaign)
  {
  }
}

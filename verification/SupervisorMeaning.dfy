/** What state a cycle is in and how a run of the campaign supervisor ends, in terms of the probes, the
    campaign and the clock alone. */
module SupervisorMeaning {
  import opened Wrappers
  import opened ChainDetector
  import opened ChainMeaning
  import opened Supervisor

  /** The probe at `i` is the first of its name. */
  predicate First(probes: seq<Probe>, i: nat, name: ProbeName)
    requires i < |probes|
  {
    probes[i].name == name && forall j :: 0 <= j < i ==> probes[j].name != name
  }

  lemma FoundIff(probes: seq<Probe>, name: ProbeName)
    ensures forall i :: 0 <= i < |probes| && First(probes, i, name) ==> FindProbe(probes, name) == Some(probes[i])
    ensures FindProbe(probes, name).Some? ==> exists i :: 0 <= i < |probes| && First(probes, i, name)
  {
    var k := FirstNamed(probes, name);
    if k < |probes| { assert First(probes, k, name); }
    forall i | 0 <= i < |probes| && First(probes, i, name) ensures i == k {}
  }

  predicate FirstIsBlocked(probes: seq<Probe>, name: ProbeName) {
    exists i :: 0 <= i < |probes| && First(probes, i, name) && probes[i].status == StatusBlocked
  }

  lemma BlockedIff(probes: seq<Probe>, name: ProbeName)
    ensures Blocked(probes, name) <==> FirstIsBlocked(probes, name)
  {
    FoundIff(probes, name);
  }

  /** The first host probe is usable and reports a wake-up or less than an hour since the start. */
  predicate Woken(probes: seq<Probe>) {
    exists i :: 0 <= i < |probes| && First(probes, i, Host) && probes[i].status == StatusOk
                     && ((exists k :: 0 <= k < |probes[i].sleepWake| && probes[i].sleepWake[k] != "none detected")
                         || (probes[i].uptime.Some? && probes[i].uptime.value < 3600))
  }

  lemma WokenIff(probes: seq<Probe>)
    ensures Interruption(probes) <==> Woken(probes)
  {
    FoundIff(probes, Host);
    var host := FindProbe(probes, Host);
    if host.Some? {
      var items := host.value.sleepWake;
      assert forall k :: 0 <= k < |items| ==> items[k] in items;
      if item :| item in items && item != "none detected" {
        var k :| 0 <= k < |items| && items[k] == item;
      }
    }
  }

  /** The narrowest count that the campaign can ask for and the probe knows is positive, if there is
      one: that of the bot, of the strategy, or the overall one. */
  predicate SomeActivity(c: Counts, campaign: Campaign) {
    if campaign.botId != "" && c.ofBot.Some? then c.ofBot.value > 0
    else if campaign.strategyId != "" && c.ofStrategy.Some? then c.ofStrategy.value > 0
    else c.everywhere.Some? ==> c.everywhere.value > 0
  }

  /** The first ledger probe is usable, shows activity, and its events or summary are a complete chain:
      well-formed throughout, every step shown. */
  predicate ChainSeen(probes: seq<Probe>, campaign: Campaign) {
    exists i :: 0 <= i < |probes| && First(probes, i, CorrelationLedger) && probes[i].status == StatusOk
                     && SomeActivity(probes[i].counts, campaign) && Complete(probes[i].events)
  }

  predicate Complete(ev: Evidence) {
    && (forall k :: 0 <= k < |ev.events| ==> !Malformed(ev.events[k]))
    && Shows(ev, "SIGNAL") && Shows(ev, "DECISION") && Shows(ev, "ORDER") && Shows(ev, "FILL")
  }

  lemma CompleteIff(ev: Evidence)
    ensures Classify(ev) == "complete_chain" <==> Complete(ev)
  {
    ClassifyMeans(ev);
    assert "complete_chain"[0] == 'c' && "no_events"[0] == 'n' && "malformed_chain"[0] == 'm';
    assert "signal_only"[0] == 's' && "signal_decision"[0] == 's' && "signal_decision_order"[0] == 's';
  }

  lemma ChainIff(probes: seq<Probe>, campaign: Campaign)
    ensures Detects(probes, campaign) <==> ChainSeen(probes, campaign)
  {
    FoundIff(probes, CorrelationLedger);
    CompleteIff(LedgerEvents(probes));
  }

  /** Each state exactly: runtime blocks, then data blocks, then a chain, then an interruption, then the
      deadline, which has passed from its own second on. */
  lemma StateMeans(campaign: Campaign, o: Observation)
    requires StateOf(campaign, o).Some?
    ensures var s := StateOf(campaign, o).value;
            var runtime := FirstIsBlocked(o.probes, Docker) || FirstIsBlocked(o.probes, Safety);
            var data := FirstIsBlocked(o.probes, DbReadonly) || FirstIsBlocked(o.probes, Candles)
                        || FirstIsBlocked(o.probes, CorrelationLedger);
            var late := campaign.timeout.Some? && campaign.timeout.value <= o.now;
            && (s == BlockedRuntime <==> runtime)
            && (s == BlockedDbReadonly <==> !runtime && data)
            && (s == ChainFound <==> !runtime && !data && ChainSeen(o.probes, campaign))
            && (s == Interrupted <==> !runtime && !data && !ChainSeen(o.probes, campaign) && Woken(o.probes))
            && (s == TimeoutNoChain
                <==> !runtime && !data && !ChainSeen(o.probes, campaign) && !Woken(o.probes) && late)
            && (s == Running
                <==> !runtime && !data && !ChainSeen(o.probes, campaign) && !Woken(o.probes) && !late)
  {
    BlockedIff(o.probes, Docker);
    BlockedIff(o.probes, Safety);
    BlockedIff(o.probes, DbReadonly);
    BlockedIff(o.probes, Candles);
    BlockedIff(o.probes, CorrelationLedger);
    ChainIff(o.probes, campaign);
    WokenIff(o.probes);
  }

  /** A type that is no text makes the supervisor raise where it reads the ledger's events: in the state
      if nothing blocks, and in the entry at the latest. */
  lemma EntryMeans(cycle: nat, campaign: Campaign, o: Observation)
    ensures EntryOf(cycle, campaign, o).None?
            <==> exists i :: 0 <= i < |o.probes| && First(o.probes, i, CorrelationLedger)
                                  && o.probes[i].status == StatusOk
                                  && SomeActivity(o.probes[i].counts, campaign)
                                  && ((exists e :: e in o.probes[i].events.events && e.kind.NotText?)
                                      || NotText in o.probes[i].events.byType)
    ensures EntryOf(cycle, campaign, o).Some? ==>
              var e := EntryOf(cycle, campaign, o).value;
              && e.cycle == cycle && Some(e.state) == StateOf(campaign, o)
              && (e.chain.Some? <==> ChainSeen(o.probes, campaign))
              && forall i :: 0 <= i < |o.probes| && First(o.probes, i, CorrelationLedger) ==>
                   && e.laneCount == LaneOf(o.probes[i].counts, campaign)
                   && (e.chain.Some? ==> e.chain.value == DetectionOf(o.probes[i].events))
  {
    FoundIff(o.probes, CorrelationLedger);
    ChainIff(o.probes, campaign);
  }

  function LaneOf(c: Counts, campaign: Campaign): Option<int> {
    if campaign.botId != "" && c.ofBot.Some? then c.ofBot
    else if campaign.strategyId != "" && c.ofStrategy.Some? then c.ofStrategy
    else c.everywhere
  }

  /** Cycle by cycle the log holds the states of the observations; only the last may not be running. */
  lemma LogStates(campaign: Campaign, world: seq<Observation>, maxCycles: Option<int>, once: bool)
    ensures var log := Poll(CyclesOf(campaign, world), maxCycles, once, 0).0;
            && |log| <= |world|
            && (forall k :: 0 <= k < |log| ==> StateOf(campaign, world[k]) == Some(log[k].state))
            && (forall k :: 0 <= k < |log| - 1 ==> log[k].state == Running)
            && (forall k :: 0 <= k < |log| ==> log[k].state != BlockedGovernance)
  {
    var log := Poll(CyclesOf(campaign, world), maxCycles, once, 0).0;
    LogFollowsWorld(campaign, world, maxCycles, once);
    LogIsFaithful(CyclesOf(campaign, world), maxCycles, once, 0);
    forall k | 0 <= k < |log| ensures StateOf(campaign, world[k]) == Some(log[k].state) {
      assert EntryOf(k + 1, campaign, world[k]) == Some(log[k]);
    }
  }

  /** The code with which a state ends the run; the running one does not. */
  predicate EndsWith(s: State, code: int) {
    || (s == ChainFound && code == 10) || (s == TimeoutNoChain && code == 20) || (s == Interrupted && code == 30)
    || (s == BlockedRuntime && code == 40) || (s == BlockedDbReadonly && code == 41)
  }

  /** How a run ends with a code: that of the state of its last cycle, all cycles before it running;
      or zero, only running cycles, where the bound or `once` ends it. */
  lemma RunEnds(campaign: Campaign, world: seq<Observation>, maxCycles: Option<int>, once: bool)
    returns (log: seq<Entry>, code: int)
    requires Poll(CyclesOf(campaign, world), maxCycles, once, 0).1.Exit?
    ensures Poll(CyclesOf(campaign, world), maxCycles, once, 0) == (log, Exit(code)) && |log| <= |world|
    ensures forall k :: 0 <= k < |log| - 1 ==> StateOf(campaign, world[k]) == Some(Running)
    ensures log != [] ==> StateOf(campaign, world[|log| - 1]) == Some(log[|log| - 1].state)
    ensures code != 0 ==> log != [] && EndsWith(log[|log| - 1].state, code)
    ensures code == 0 ==> log != [] ==> log[|log| - 1].state == Running
    ensures code == 0 ==> (once && |log| == 1) || (maxCycles.Some? && |log| >= maxCycles.value)
  {
    var cycles := CyclesOf(campaign, world);
    log, code := Poll(cycles, maxCycles, once, 0).0, Poll(cycles, maxCycles, once, 0).1.code;
    LogStates(campaign, world, maxCycles, once);
    CyclesBounded(cycles, maxCycles, once, 0);
    CodeOfLast(cycles, maxCycles, once);
  }

  /** Without a code it is still polling, all observations used up, or the next one raises. */
  lemma RunGoesOn(campaign: Campaign, world: seq<Observation>, maxCycles: Option<int>, once: bool)
    requires !Poll(CyclesOf(campaign, world), maxCycles, once, 0).1.Exit?
    ensures var (log, outcome) := Poll(CyclesOf(campaign, world), maxCycles, once, 0);
            && |log| <= |world|
            && if outcome.StillPolling? then |log| == |world|
               else |log| < |world| && EntryOf(|log| + 1, campaign, world[|log|]).None?
  {
    var cycles := CyclesOf(campaign, world);
    CyclesBounded(cycles, maxCycles, once, 0);
    RaisedAt(cycles, maxCycles, once, 0);
  }

  lemma CodeOfLast(cycles: seq<Option<Entry>>, maxCycles: Option<int>, once: bool)
    requires Poll(cycles, maxCycles, once, 0).1.Exit?
    ensures var (log, outcome) := Poll(cycles, maxCycles, once, 0);
            && (outcome.code == 0 ==>
                  && (forall k :: 0 <= k < |log| ==> log[k].state == Running)
                  && ((once && log != []) || (maxCycles.Some? && |log| >= maxCycles.value)))
            && (outcome.code != 0 ==>
                  && log != []
                  && (log[|log| - 1].state != BlockedGovernance ==> EndsWith(log[|log| - 1].state, outcome.code)))
  {
    ExitCodeMatchesLog(cycles, maxCycles, once, 0);
    var (log, outcome) := Poll(cycles, maxCycles, once, 0);
    assert forall k :: 0 <= k < |log| ==> log[k] in log;
    if outcome.code != 0 { assert ExitCode(log[|log| - 1].state) == outcome.code; }
  }

  /** What a run leaves behind: all entries in the log if one is kept, the last entry on the page if
      there is one, and nothing otherwise. */
  lemma WrittenMeans(written: seq<Entry>, log: bool, status: bool, before: Option<Entry>)
    ensures |Logged(written, log)| == if log then |written| else 0
    ensures forall k :: 0 <= k < |Logged(written, log)| ==> Logged(written, log)[k] == written[k]
    ensures !status || written == [] ==> Shown(written, status, before) == before
    ensures status ==> forall e :: e in written[if |written| > 0 then |written| - 1 else 0..] ==>
                         Shown(written, status, before) == Some(e)
  {
  }

  lemma {:induction false} RaisedAt(cycles: seq<Option<Entry>>, maxCycles: Option<int>, once: bool, done: nat)
    requires done <= |cycles|
    ensures var (log, outcome) := Poll(cycles, maxCycles, once, done);
            outcome == Raised ==> done + |log| < |cycles| && cycles[done + |log|].None?
    decreases |cycles| - done
  {
    if done < |cycles| { RaisedAt(cycles, maxCycles, once, done + 1); }
  }

  /** In particular, a campaign ends by its deadline in the first cycle at or after it, unless a block, a
      chain or an interruption comes first. */
  lemma DeadlineEnds(campaign: Campaign, world: seq<Observation>, maxCycles: Option<int>, once: bool)
    requires Poll(CyclesOf(campaign, world), maxCycles, once, 0).1 == Exit(20)
    ensures var n := |Poll(CyclesOf(campaign, world), maxCycles, once, 0).0|;
            && 0 < n <= |world| && campaign.timeout.Some? && campaign.timeout.value <= world[n - 1].now
            && forall k :: 0 <= k < n - 1 ==> world[k].now < campaign.timeout.value
  {
    var log, code := RunEnds(campaign, world, maxCycles, once);
    var n := |log|;
    forall k | 0 <= k < n
      ensures if k == n - 1 then campaign.timeout.Some? && campaign.timeout.value <= world[k].now
              else campaign.timeout.Some? ==> world[k].now < campaign.timeout.value
    {
      StateMeans(campaign, world[k]);
    }
  }
}

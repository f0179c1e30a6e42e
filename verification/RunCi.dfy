/** The local CI orchestrator, `run_ci` of ci/scripts/run.py: which stages run, in which order,
    through which early return the manifest is written, and what the publish gate then says.

    Everything `run_ci` cannot know in advance is in `World`: git facts, the temp-root probe,
    the configured profiles, what each stage runner returns or raises on its n-th invocation, and
    whether the steps around the stages raise. */
module RunCi {
  import opened Wrappers
  import opened Evidence

  datatype Params = Params(profile: string, stage: string, runId: string, sliceMode: bool)

  /** What raises outside the stages: reading the configuration; slice selection, git facts and the
      directories; the temp-root probe; the report, the hashes and writing the manifest. */
  datatype Faults = Faults(config: bool, setup: bool, probe: bool, closing: bool)

  /** `runner(n, name)` is what the n-th call of a runner returns, None where it raises. */
  datatype World = World(
    profiles: map<string, seq<string>>, generatedId: string, runDirExists: bool, facts: RunFacts,
    preflightOk: bool, preflightReason: string, runner: (nat, string) -> Option<StageResult>, faults: Faults)

  datatype Call = Call(name: string, result: StageResult)

  datatype Outcome = Raised(error: string) | Finished(exitCode: int, manifest: Manifest)

  /** A whole invocation: how it ended, the runner calls that returned, in order, and the runner
      that raised after them, if one did. */
  datatype RunLog = RunLog(outcome: Outcome, calls: seq<Call>, raisedIn: Option<string>)

  /** How a loop over stages leaves off: done, at a name without runner, or in a runner that raised. */
  datatype LoopEnd = Completed | NoRunner | RaisedIn(name: string)

  const RUNNERS := {"mcp_dependency_closure", "lint", "unit", "docs", "governance",
                    "integration", "security", "containers"}
  const CLOSURE := "mcp_dependency_closure"
  const REPORT_STAGE := StageResult("report", "PASS", true, "")

  function EffectiveProfile(p: Params): string {
    if p.sliceMode && p.profile == "fast" then "slice" else p.profile
  }

  predicate MergeEvidence(p: Params) {
    EffectiveProfile(p) != "slice" && !p.sliceMode
  }

  function ProfileLabel(p: Params): string {
    if p.stage == "" then EffectiveProfile(p) else "stage:" + p.stage
  }

  function RunId(p: Params, w: World): string {
    if p.runId != "" then p.runId else w.generatedId
  }

  function Selected(p: Params, w: World): seq<string>
    requires EffectiveProfile(p) in w.profiles
  {
    if p.stage != "" then [p.stage] else w.profiles[EffectiveProfile(p)]
  }

  function Preflight(w: World): StageResult {
    StageResult("temp_preflight", if w.preflightOk then "PASS" else "FAIL", true,
                if w.preflightOk then "" else w.preflightReason)
  }

  function Results(calls: seq<Call>): seq<StageResult> {
    seq(|calls|, i requires 0 <= i < |calls| => calls[i].result)
  }

  function AllStages(w: World, calls: seq<Call>): seq<StageResult> {
    [Preflight(w)] + Results(calls) + [REPORT_STAGE]
  }

  function ManifestOf(p: Params, w: World, calls: seq<Call>): Result<Manifest> {
    BuildManifest(w.facts.(runId := RunId(p, w)), ProfileLabel(p), AllStages(w, calls), MergeEvidence(p))
  }

  function ExitCode(m: Manifest): int {
    if m.overallStatus == "PASS" then 0 else if m.overallStatus == "BLOCKED" then 2 else 1
  }

  /** The calls that returned when the stage loop goes over `names`, after `before`, and its end. */
  function StageLoop(names: seq<string>, w: World, before: seq<Call>): (r: (seq<Call>, LoopEnd)) {
    if names == [] then (before, Completed)
    else
      var (calls, end) := StageLoop(names[..|names| - 1], w, before);
      var name := names[|names| - 1];
      if end != Completed || name == "report" then (calls, end)
      else if name !in RUNNERS then (calls, NoRunner)
      else
        var result := w.runner(|calls|, name);
        if result.None? then (calls, RaisedIn(name)) else (calls + [Call(name, result.value)], Completed)
  }

  /** The stages of the run: the dependency closure, if `unit` is selected, and then the loop. */
  function Stages(selected: seq<string>, w: World): (r: (seq<Call>, LoopEnd)) {
    if "unit" !in selected then StageLoop(selected, w, [])
    else
      var result := w.runner(0, CLOSURE);
      if result.None? then ([], RaisedIn(CLOSURE))
      else
        var closure := [Call(CLOSURE, result.value)];
        if result.value.status != "PASS" then (closure, Completed) else StageLoop(selected, w, closure)
  }

  /** The closure was called, returned, and did not pass. */
  predicate ClosureFailed(selected: seq<string>, w: World) {
    "unit" in selected && w.runner(0, CLOSURE).Some? && w.runner(0, CLOSURE).value.status != "PASS"
  }

  function Conclude(p: Params, w: World, calls: seq<Call>, early: bool): RunLog {
    if w.faults.closing then RunLog(Raised("closing failed"), calls, None)
    else
      match ManifestOf(p, w, calls)
      case Err(e) => RunLog(Raised(e), calls, None)
      case Ok(m) => RunLog(Finished(if early then 1 else ExitCode(m), m), calls, None)
  }

  function RunSpec(p: Params, w: World): RunLog {
    if w.faults.config then RunLog(Raised("configuration unreadable"), [], None)
    else if EffectiveProfile(p) !in w.profiles then RunLog(Raised("Unknown profile"), [], None)
    else if w.faults.setup then RunLog(Raised("setup failed"), [], None)
    else if !ValidRunId(RunId(p, w)) || w.runDirExists then RunLog(Raised("run_id rejected"), [], None)
    else if w.faults.probe then RunLog(Raised("temp-root probe failed"), [], None)
    else if !w.preflightOk then Conclude(p, w, [], true)
    else
      var selected := Selected(p, w);
      var (calls, end) := Stages(selected, w);
      match end
      case NoRunner => RunLog(Raised("Unknown stage"), calls, None)
      case RaisedIn(name) => RunLog(Raised("stage raised"), calls, Some(name))
      case Completed => Conclude(p, w, calls, ClosureFailed(selected, w))
  }

  /** Report stage, manifest and exit code, as `run_ci` repeats them on each way out. */
  method WriteManifest(p: Params, w: World, stageResults: seq<StageResult>, ghost calls: seq<Call>, early: bool)
    returns (outcome: Outcome)
    requires stageResults == [Preflight(w)] + Results(calls)
    ensures outcome == Conclude(p, w, calls, early).outcome
  {
    if w.faults.closing { return Raised("closing failed"); }
    var facts := w.facts.(runId := RunId(p, w));
    var m := BuildManifest(facts, ProfileLabel(p), stageResults + [REPORT_STAGE], MergeEvidence(p));
    assert AllStages(w, calls) == stageResults + [REPORT_STAGE];
    outcome := if m.Err? then Raised(m.error) else Finished(if early then 1 else ExitCode(m.value), m.value);
  }

  /** The stage loop: appends to the list of results until a name has no runner or a runner raises. */
  method RunSelected(selected: seq<string>, w: World, results: seq<StageResult>, before: seq<Call>)
    returns (stageResults: seq<StageResult>, calls: seq<Call>, end: LoopEnd)
    requires results == [Preflight(w)] + Results(before)
    ensures (calls, end) == StageLoop(selected, w, before)
    ensures stageResults == [Preflight(w)] + Results(calls)
  {
    stageResults, calls := results, before;
    var i := 0;
    while i < |selected|
      invariant 0 <= i <= |selected|
      invariant StageLoop(selected[..i], w, before) == (calls, Completed)
      invariant stageResults == [Preflight(w)] + Results(calls)
    {
      var name := selected[i];
      assert selected[..i + 1][..i] == selected[..i];
      if name != "report" {
        if name !in RUNNERS {
          StageLoopStops(selected, i + 1, w, before);
          end := NoRunner;
          return;
        }
        var result := w.runner(|calls|, name);
        if result.None? {
          StageLoopStops(selected, i + 1, w, before);
          end := RaisedIn(name);
          return;
        }
        stageResults := stageResults + [result.value];
        calls := calls + [Call(name, result.value)];
      }
      i := i + 1;
    }
    assert selected[..i] == selected;
    end := Completed;
  }

  /** `run_ci` itself. */
  method RunCi(p: Params, w: World) returns (outcome: Outcome, calls: seq<Call>, raisedIn: Option<string>)
    ensures RunLog(outcome, calls, raisedIn) == RunSpec(p, w)
  {
    calls, raisedIn := [], None;
    if w.faults.config { return Raised("configuration unreadable"), calls, None; }
    if EffectiveProfile(p) !in w.profiles { return Raised("Unknown profile"), calls, None; }
    if w.faults.setup { return Raised("setup failed"), calls, None; }
    if !ValidRunId(RunId(p, w)) || w.runDirExists { return Raised("run_id rejected"), calls, None; }
    if w.faults.probe { return Raised("temp-root probe failed"), calls, None; }
    if w.preflightOk {
      outcome, calls, raisedIn := RunStages(p, w);
    } else {
      assert [Preflight(w)] == [Preflight(w)] + Results(calls);
      outcome := WriteManifest(p, w, [Preflight(w)], calls, true);
    }
  }

  /** After a passing probe: the closure with its early return, the loop, the manifest. */
  method RunStages(p: Params, w: World) returns (outcome: Outcome, calls: seq<Call>, raisedIn: Option<string>)
    requires EffectiveProfile(p) in w.profiles && w.preflightOk
    ensures var (made, end) := Stages(Selected(p, w), w);
            RunLog(outcome, calls, raisedIn)
            == match end
               case NoRunner => RunLog(Raised("Unknown stage"), made, None)
               case RaisedIn(name) => RunLog(Raised("stage raised"), made, Some(name))
               case Completed => Conclude(p, w, made, ClosureFailed(Selected(p, w), w))
  {
    calls, raisedIn := [], None;
    var selected := Selected(p, w);
    var stageResults := [Preflight(w)];
    assert stageResults == [Preflight(w)] + Results(calls);
    if "unit" in selected {
      var result := w.runner(0, CLOSURE);
      if result.None? { return Raised("stage raised"), calls, Some(CLOSURE); }
      stageResults := stageResults + [result.value];
      calls := [Call(CLOSURE, result.value)];
      assert stageResults == [Preflight(w)] + Results(calls);
      if result.value.status != "PASS" {
        outcome := WriteManifest(p, w, stageResults, calls, true);
        return;
      }
    }
    var end;
    stageResults, calls, end := RunSelected(selected, w, stageResults, calls);
    match end {
      case NoRunner => outcome := Raised("Unknown stage");
      case RaisedIn(name) => outcome, raisedIn := Raised("stage raised"), Some(name);
      case Completed => outcome := WriteManifest(p, w, stageResults, calls, false);
    }
  }

  lemma {:induction false} StageLoopStops(names: seq<string>, k: nat, w: World, before: seq<Call>)
    requires k <= |names| && StageLoop(names[..k], w, before).1 != Completed
    ensures StageLoop(names, w, before) == StageLoop(names[..k], w, before)
  {
    if k < |names| {
      assert names[..|names| - 1][..k] == names[..k];
      StageLoopStops(names[..|names| - 1], k, w, before);
    } else {
      assert names[..k] == names;
    }
  }

  // ---- What the gate says of the runs ----

  predicate Accepted(log: RunLog) {
    log.outcome.Finished? && Publishable(log.outcome.manifest, REQUIRED_STAGES)
  }

  predicate WantsSlice(p: Params) { p.sliceMode || p.profile == "slice" }

  lemma FinishedByConclude(p: Params, w: World)
    requires RunSpec(p, w).outcome.Finished?
    ensures ManifestOf(p, w, RunSpec(p, w).calls) == Ok(RunSpec(p, w).outcome.manifest)
  {
  }

  /** No slice run is accepted: not in slice mode over another profile, not with a single stage,
      not through an early return. */
  lemma SliceRunNeverAccepted(p: Params, w: World)
    requires WantsSlice(p)
    ensures !Accepted(RunSpec(p, w))
  {
    if Accepted(RunSpec(p, w)) {
      FinishedByConclude(p, w);
      GateExact(w.facts.(runId := RunId(p, w)), ProfileLabel(p), AllStages(w, RunSpec(p, w).calls), MergeEvidence(p));
    }
  }

  lemma {:induction false} PassedIsPresent(stages: seq<StageResult>, name: string)
    requires LastPassed(stages, name)
    ensures exists i :: 0 <= i < |stages| && stages[i].name == name
  {
    var n := |stages| - 1;
    if stages[n].name != name {
      PassedIsPresent(stages[..n], name);
      var i :| 0 <= i < n && stages[..n][i].name == name;
      assert stages[i].name == name;
    }
  }

  lemma FourNamesNeedFourStages(stages: seq<StageResult>)
    requires forall name :: name in REQUIRED_STAGES ==> exists i :: 0 <= i < |stages| && stages[i].name == name
    ensures |stages| >= 4
  {
    assert REQUIRED_STAGES[0] in REQUIRED_STAGES && REQUIRED_STAGES[1] in REQUIRED_STAGES
        && REQUIRED_STAGES[2] in REQUIRED_STAGES && REQUIRED_STAGES[3] in REQUIRED_STAGES;
    var a :| 0 <= a < |stages| && stages[a].name == "lint";
    var b :| 0 <= b < |stages| && stages[b].name == "unit";
    var c :| 0 <= c < |stages| && stages[c].name == "docs";
    var d :| 0 <= d < |stages| && stages[d].name == "governance";
    assert "lint"[0] == 'l' && "unit"[0] == 'u' && "docs"[0] == 'd' && "governance"[0] == 'g';
  }

  lemma RequiredComesFromCall(w: World, calls: seq<Call>, name: string)
    requires name in REQUIRED_STAGES && LastPassed(AllStages(w, calls), name)
    ensures exists i :: 0 <= i < |Results(calls)| && Results(calls)[i].name == name
  {
    var stages := AllStages(w, calls);
    PassedIsPresent(stages, name);
    var i :| 0 <= i < |stages| && stages[i].name == name;
    assert stages[i] in Results(calls) || i == 0 || i == |stages| - 1;
    assert name[0] != 't' && name[0] != 'r';
    assert "temp_preflight"[0] == 't' && "report"[0] == 'r';
    assert Results(calls)[i - 1].name == name;
  }

  /** Four required names need four runner calls: the two fixed stages carry other names. */
  lemma FewCallsNeverAccepted(p: Params, w: World)
    requires |RunSpec(p, w).calls| <= 3
    ensures !Accepted(RunSpec(p, w))
  {
    var calls := RunSpec(p, w).calls;
    if Accepted(RunSpec(p, w)) {
      FinishedByConclude(p, w);
      forall name | name in REQUIRED_STAGES
        ensures exists i :: 0 <= i < |Results(calls)| && Results(calls)[i].name == name
      {
        RequiredComesFromCall(w, calls, name);
      }
      FourNamesNeedFourStages(Results(calls));
    }
  }

  lemma {:induction false} StageLoopBound(names: seq<string>, w: World, before: seq<Call>)
    ensures before <= StageLoop(names, w, before).0
    ensures |StageLoop(names, w, before).0| <= |before| + |names|
    ensures forall i :: |before| <= i < |StageLoop(names, w, before).0| ==>
              StageLoop(names, w, before).0[i].name in names
    ensures StageLoop(names, w, before).1.RaisedIn? ==> StageLoop(names, w, before).1.name in names
  {
    if names != [] { StageLoopBound(names[..|names| - 1], w, before); }
  }

  /** No single-stage run is accepted, whatever its runners return (names included). */
  lemma SingleStageNeverAccepted(p: Params, w: World)
    requires p.stage != ""
    ensures !Accepted(RunSpec(p, w))
  {
    if EffectiveProfile(p) in w.profiles { StagesBound(Selected(p, w), w); }
    FewCallsNeverAccepted(p, w);
  }

  lemma StagesBound(selected: seq<string>, w: World)
    ensures |Stages(selected, w).0| <= |selected| + 1
    ensures (exists i :: 0 <= i < |Stages(selected, w).0| && Stages(selected, w).0[i].name == "unit")
            || Stages(selected, w).1 == RaisedIn("unit") ==>
              && Stages(selected, w).0 != [] && Stages(selected, w).0[0].name == CLOSURE
              && Stages(selected, w).0[0].result.status == "PASS"
  {
    assert CLOSURE[0] != "unit"[0];
    if "unit" in selected && w.runner(0, CLOSURE).Some? {
      var closure := [Call(CLOSURE, w.runner(0, CLOSURE).value)];
      StageLoopBound(selected, w, closure);
      assert closure[0] == StageLoop(selected, w, closure).0[0];
    } else {
      StageLoopBound(selected, w, []);
    }
  }

  /** An accepted run exits 0, so it left through no early return. */
  lemma AcceptedExitsZero(p: Params, w: World)
    requires Accepted(RunSpec(p, w))
    ensures RunSpec(p, w).outcome.exitCode == 0
  {
    FinishedByConclude(p, w);
    if |RunSpec(p, w).calls| <= 3 { FewCallsNeverAccepted(p, w); }
  }

  /** In every run, finished or raised: before a `unit` call, be it one that raised, the temp-root
      probe passed and an earlier `mcp_dependency_closure` call returned PASS. */
  lemma UnitRunsGuarded(p: Params, w: World)
    requires var log := RunSpec(p, w);
             (exists i :: 0 <= i < |log.calls| && log.calls[i].name == "unit") || log.raisedIn == Some("unit")
    ensures w.preflightOk && RunSpec(p, w).calls != []
    ensures RunSpec(p, w).calls[0].name == CLOSURE && RunSpec(p, w).calls[0].result.status == "PASS"
  {
    if EffectiveProfile(p) in w.profiles { StagesBound(Selected(p, w), w); }
  }

  /** The gate does accept the run it is for: a clean fast-profile run, every stage passing. */
  lemma CleanFastRunAccepted(p: Params, w: World)
    requires p.profile == "fast" && !p.sliceMode && p.stage == "" && w.faults == Faults(false, false, false, false)
    requires "fast" in w.profiles && w.profiles["fast"] == ["lint", "unit", "docs", "governance"]
    requires ValidRunId(RunId(p, w)) && !w.runDirExists && w.preflightOk
    requires w.facts.repoName in REPO_NAMES && !w.facts.dirtyWorktree
    requires forall n: nat, name ::
               w.runner(n, name).Some? && w.runner(n, name).value.name == name
                   && w.runner(n, name).value.status == "PASS"
    ensures Accepted(RunSpec(p, w)) && RunSpec(p, w).outcome.exitCode == 0
  {
    var calls := FastStages(w);
    assert RunSpec(p, w) == Conclude(p, w, calls, false);
    FastStagesAccepted(p, w, calls);
  }

  lemma FastStages(w: World) returns (calls: seq<Call>)
    requires forall n: nat, name ::
               w.runner(n, name).Some? && w.runner(n, name).value.name == name
                   && w.runner(n, name).value.status == "PASS"
    ensures var selected := ["lint", "unit", "docs", "governance"];
            Stages(selected, w) == (calls, Completed) && !ClosureFailed(selected, w)
    ensures |calls| == 5 && forall i :: 0 <= i < 5 ==> calls[i].result.status == "PASS"
    ensures calls[1].result.name == "lint" && calls[2].result.name == "unit"
    ensures calls[3].result.name == "docs" && calls[4].result.name == "governance"
  {
    var selected := ["lint", "unit", "docs", "governance"];
    assert selected[1] == "unit" && "unit" in selected;
    calls := FastLoop(w, [Call(CLOSURE, w.runner(0, CLOSURE).value)]);
  }

  lemma FastLoop(w: World, closure: seq<Call>) returns (calls: seq<Call>)
    requires |closure| == 1 && forall n: nat, name :: w.runner(n, name).Some?
    ensures StageLoop(["lint", "unit", "docs", "governance"], w, closure) == (calls, Completed)
    ensures calls == closure + [Call("lint", w.runner(1, "lint").value), Call("unit", w.runner(2, "unit").value),
                                Call("docs", w.runner(3, "docs").value),
                                Call("governance", w.runner(4, "governance").value)]
  {
    calls := StageLoopSnoc([], "lint", ["lint"], w, closure, closure);
    calls := StageLoopSnoc(["lint"], "unit", ["lint", "unit"], w, closure, calls);
    calls := StageLoopSnoc(["lint", "unit"], "docs", ["lint", "unit", "docs"], w, closure, calls);
    var whole := ["lint", "unit", "docs", "governance"];
    calls := StageLoopSnoc(["lint", "unit", "docs"], "governance", whole, w, closure, calls);
  }

  lemma FastStagesAccepted(p: Params, w: World, calls: seq<Call>)
    requires ProfileLabel(p) == "fast" && MergeEvidence(p) && !w.faults.closing
    requires ValidRunId(RunId(p, w)) && w.preflightOk && w.facts.repoName in REPO_NAMES && !w.facts.dirtyWorktree
    requires |calls| == 5 && forall i :: 0 <= i < 5 ==> calls[i].result.status == "PASS"
    requires calls[1].result.name == "lint" && calls[2].result.name == "unit"
    requires calls[3].result.name == "docs" && calls[4].result.name == "governance"
    ensures Conclude(p, w, calls, false).outcome.Finished? && Accepted(Conclude(p, w, calls, false))
    ensures Conclude(p, w, calls, false).outcome.exitCode == 0
  {
    var stages := AllStages(w, calls);
    forall name | name in REQUIRED_STAGES ensures LastPassed(stages, name) {
      LastOfSeven(stages, name);
    }
    forall s | s in stages ensures StageGreen(s) {
      var i :| 0 <= i < 7 && stages[i] == s;
      if 0 < i < 6 { assert s == calls[i - 1].result; }
    }
    GateExact(w.facts.(runId := RunId(p, w)), "fast", stages, true);
  }

  lemma StageLoopSnoc(names: seq<string>, name: string, whole: seq<string>, w: World, before: seq<Call>,
      calls: seq<Call>)
    returns (next: seq<Call>)
    requires StageLoop(names, w, before) == (calls, Completed) && name in RUNNERS && name != "report"
    requires whole == names + [name] && w.runner(|calls|, name).Some?
    ensures next == calls + [Call(name, w.runner(|calls|, name).value)]
    ensures StageLoop(whole, w, before) == (next, Completed)
  {
    next := calls + [Call(name, w.runner(|calls|, name).value)];
    assert whole[..|whole| - 1] == names;
  }

  lemma LastOfSeven(stages: seq<StageResult>, name: string)
    requires |stages| == 7 && name in REQUIRED_STAGES
    requires stages[2].name == "lint" && stages[3].name == "unit" && stages[4].name == "docs"
    requires stages[5].name == "governance" && stages[6].name == "report"
    requires forall i :: 2 <= i <= 5 ==> stages[i].status == "PASS"
    ensures LastPassed(stages, name)
  {
    var s6 := stages[..6];
    var s5 := s6[..5];
    var s4 := s5[..4];
    var s3 := s4[..3];
    assert LastNamed(stages, name) == LastNamed(s6, name);
    assert name != "governance" ==> LastNamed(s6, name) == LastNamed(s5, name);
    assert name != "governance" && name != "docs" ==> LastNamed(s5, name) == LastNamed(s4, name);
    assert name == "lint" ==> LastNamed(s4, name) == LastNamed(s3, name) == Some(stages[2]);
  }
}

/** What a finished run of `run_ci` is: its calls, its manifest and its exit code, in terms of what was
    asked for and what the runners returned. */
module RunOutcomes {
  import opened Wrappers
  import opened Evidence
  import opened RunCi

  /** The names to run: the one stage asked for, or those of the profile. */
  predicate Selects(p: Params, w: World, selected: seq<string>) {
    if p.stage != "" then selected == [p.stage]
    else
      var profile := if p.sliceMode && p.profile == "fast" then "slice" else p.profile;
      profile in w.profiles && selected == w.profiles[profile]
  }

  /** The run left through no early return: the probe passed and, if `unit` is selected, the first
      call, which is the closure, as well. */
  predicate RanThrough(w: World, selected: seq<string>, calls: seq<Call>) {
    w.preflightOk && ("unit" in selected ==> calls != [] && calls[0].result.status == "PASS")
  }

  function CallNames(calls: seq<Call>): seq<string> {
    seq(|calls|, i requires 0 <= i < |calls| => calls[i].name)
  }

  // ---- Calls ----

  lemma {:induction false} LoopResults(names: seq<string>, w: World, before: seq<Call>)
    requires StageLoop(names, w, before).1 == Completed
    ensures var calls := StageLoop(names, w, before).0;
            && before <= calls
            && forall i :: |before| <= i < |calls| ==> w.runner(i, calls[i].name) == Some(calls[i].result)
  {
    if names != [] { LoopResults(names[..|names| - 1], w, before); }
  }

  /** The loop calls what it is given but `report`. */
  predicate CallsGiven(called: seq<string>, names: seq<string>) {
    && multiset(called) == multiset(names)["report" := 0]
    && ("report" !in names ==> called == names)
  }

  lemma {:induction false} LoopCalls(names: seq<string>, w: World, before: seq<Call>)
    requires StageLoop(names, w, before).1 == Completed
    ensures |before| <= |StageLoop(names, w, before).0|
    ensures CallsGiven(CallNames(StageLoop(names, w, before).0[|before|..]), names)
  {
    if names != [] {
      var rest, name := names[..|names| - 1], names[|names| - 1];
      LoopCalls(rest, w, before);
      var sofar := StageLoop(rest, w, before).0;
      GivenLater(CallNames(sofar[|before|..]), rest, name);
      assert names == rest + [name];
      if name != "report" { OneCallMore(sofar, |before|, name, w.runner); }
    } else {
      assert before[|before|..] == [];
    }
  }

  lemma GivenLater(called: seq<string>, names: seq<string>, name: string)
    requires CallsGiven(called, names)
    ensures CallsGiven(if name == "report" then called else called + [name], names + [name])
  {
    OneNameMore(names, name);
  }

  lemma OneNameMore(names: seq<string>, name: string)
    ensures multiset(names + [name])["report" := 0]
            == multiset(names)["report" := 0] + if name == "report" then multiset{} else multiset{name}
  {
  }

  lemma OneCallMore(calls: seq<Call>, n: nat, name: string, runner: (nat, string) -> Option<StageResult>)
    requires n <= |calls| && runner(|calls|, name).Some?
    ensures var longer := calls + [Call(name, runner(|calls|, name).value)];
            CallNames(longer[n..]) == CallNames(calls[n..]) + [name]
  {
    var call := Call(name, runner(|calls|, name).value);
    assert (calls + [call])[n..] == calls[n..] + [call];
  }

  /** Which runners the stages call: the closure first if `unit` is selected, alone if it did not pass;
      else, after it, every selected stage but `report`, as often and in the order as selected. */
  lemma StagesMean(selected: seq<string>, w: World)
    requires Stages(selected, w).1 == Completed
    ensures var calls := Stages(selected, w).0;
            && (forall i :: 0 <= i < |calls| ==> w.runner(i, calls[i].name) == Some(calls[i].result))
            && ("unit" in selected ==> calls != [] && calls[0].name == "mcp_dependency_closure")
            && if "unit" in selected && calls[0].result.status != "PASS" then |calls| == 1
               else
                 var closures := if "unit" in selected then 1 else 0;
                 |calls| >= closures && CallsGiven(CallNames(calls[closures..]), selected)
    ensures ClosureFailed(selected, w) <==> "unit" in selected && Stages(selected, w).0[0].result.status != "PASS"
  {
    if "unit" !in selected {
      LoopCalls(selected, w, []);
      LoopResults(selected, w, []);
    } else {
      var closure := [Call(CLOSURE, w.runner(0, CLOSURE).value)];
      if closure[0].result.status == "PASS" {
        LoopCalls(selected, w, closure);
        LoopResults(selected, w, closure);
        assert StageLoop(selected, w, closure).0[0] == closure[0];
      }
    }
  }

  lemma FinishedStages(p: Params, w: World, selected: seq<string>)
    requires RunSpec(p, w).outcome.Finished? && Selects(p, w, selected)
    ensures var calls := RunSpec(p, w).calls;
            if w.preflightOk
            then Stages(selected, w) == (calls, Completed)
                 && RunSpec(p, w) == Conclude(p, w, calls, ClosureFailed(selected, w))
            else calls == [] && RunSpec(p, w) == Conclude(p, w, calls, true)
  {
    assert selected == Selected(p, w);
  }

  /** The calls of a finished run: none if the probe failed, else those of its stages. What a call
      returned is what its runner gave. */
  lemma CallsMean(p: Params, w: World, selected: seq<string>)
    requires RunSpec(p, w).outcome.Finished? && Selects(p, w, selected)
    ensures var calls := RunSpec(p, w).calls;
            var closures := if "unit" in selected then 1 else 0;
            && (forall i :: 0 <= i < |calls| ==> w.runner(i, calls[i].name) == Some(calls[i].result))
            && (!w.preflightOk ==> calls == [])
            && (w.preflightOk && "unit" in selected ==> calls != [] && calls[0].name == "mcp_dependency_closure")
            && (w.preflightOk && !RanThrough(w, selected, calls) ==> |calls| == 1)
            && (RanThrough(w, selected, calls) ==>
                  && |calls| >= closures
                  && multiset(CallNames(calls[closures..])) == multiset(selected)["report" := 0]
                  && ("report" !in selected ==> CallNames(calls[closures..]) == selected))
  {
    FinishedStages(p, w, selected);
    if w.preflightOk { StagesMean(selected, w); }
  }

  // ---- The manifest ----

  /** The manifest of a finished run: the probe, the calls in order and the report as its stages, the
      git facts, and merge evidence only outside the slice mode and the slice profile. */
  lemma ManifestMeans(p: Params, w: World)
    requires RunSpec(p, w).outcome.Finished?
    ensures var (m, calls) := (RunSpec(p, w).outcome.manifest, RunSpec(p, w).calls);
            && |m.stages| == |calls| + 2
            && m.stages[0].name == "temp_preflight" && m.stages[0].required
            && m.stages[0].status == (if w.preflightOk then "PASS" else "FAIL")
            && (forall i :: 0 <= i < |calls| ==> m.stages[i + 1] == calls[i].result)
            && m.stages[|calls| + 1] == StageResult("report", "PASS", true, "")
            && m.mergeEvidence == Flag(!p.sliceMode && p.profile != "slice")
            && m.dirtyWorktree == Flag(w.facts.dirtyWorktree) && m.commitSha == w.facts.commitSha
            && m.runId == (if p.runId != "" then p.runId else w.generatedId)
            && m.profile == (if p.stage != "" then "stage:" + p.stage
                             else if p.sliceMode && p.profile == "fast" then "slice" else p.profile)
            && m.artifactHashes == w.facts.artifactHashes
            && m.overallStatus == AggregateOverallStatus(m.stages, w.facts.dirtyWorktree)
  {
    FinishedByConclude(p, w);
    BuiltManifest(p, w, RunSpec(p, w).calls);
    StagesListed(w, RunSpec(p, w).calls);
  }

  lemma StagesListed(w: World, calls: seq<Call>)
    ensures var stages := AllStages(w, calls);
            && |stages| == |calls| + 2
            && stages[0].name == "temp_preflight" && stages[0].required
            && stages[0].status == (if w.preflightOk then "PASS" else "FAIL")
            && (forall i :: 0 <= i < |calls| ==> stages[i + 1] == calls[i].result)
            && stages[|calls| + 1] == StageResult("report", "PASS", true, "")
  {
  }

  lemma BuiltManifest(p: Params, w: World, calls: seq<Call>)
    requires ManifestOf(p, w, calls).Ok?
    ensures var m := ManifestOf(p, w, calls).value;
            && m.stages == AllStages(w, calls)
            && m.mergeEvidence == Flag(!p.sliceMode && p.profile != "slice")
            && m.dirtyWorktree == Flag(w.facts.dirtyWorktree) && m.commitSha == w.facts.commitSha
            && m.runId == (if p.runId != "" then p.runId else w.generatedId)
            && m.profile == (if p.stage != "" then "stage:" + p.stage
                             else if p.sliceMode && p.profile == "fast" then "slice" else p.profile)
            && m.artifactHashes == w.facts.artifactHashes
            && m.overallStatus == AggregateOverallStatus(m.stages, w.facts.dirtyWorktree)
  {
    BuildMeans(w.facts.(runId := RunId(p, w)), ProfileLabel(p), AllStages(w, calls), MergeEvidence(p));
    LabelMeans(p);
  }

  lemma LabelMeans(p: Params)
    ensures ProfileLabel(p) == (if p.stage != "" then "stage:" + p.stage
                                else if p.sliceMode && p.profile == "fast" then "slice" else p.profile)
    ensures MergeEvidence(p) && ProfileLabel(p) != "slice" <==> !p.sliceMode && p.profile != "slice"
  {
    assert "slice"[1] == 'l' && "stage:"[1] == 't' && "fast"[0] == 'f';
  }

  // ---- The exit code ----

  /** The exit code of a finished run. */
  lemma ExitMeans(p: Params, w: World, selected: seq<string>)
    requires RunSpec(p, w).outcome.Finished? && Selects(p, w, selected)
    ensures var (outcome, through) := (RunSpec(p, w).outcome, RanThrough(w, selected, RunSpec(p, w).calls));
            && (outcome.exitCode == 0 <==> through && outcome.manifest.overallStatus == "PASS")
            && (outcome.exitCode == 2 <==> through && outcome.manifest.overallStatus == "BLOCKED")
            && (outcome.exitCode == 0 || outcome.exitCode == 1 || outcome.exitCode == 2)
  {
    FinishedStages(p, w, selected);
    if w.preflightOk { StagesMean(selected, w); }
    assert "PASS"[0] != "BLOCKED"[0];
  }

  /** It is zero exactly for a clean tree and a run that passed all the way, calls that are optional
      and skipped for a reason apart. So no run with a failed stage exits zero. */
  lemma ZeroIffAllGreen(p: Params, w: World, selected: seq<string>)
    requires RunSpec(p, w).outcome.Finished? && Selects(p, w, selected)
    ensures var calls := RunSpec(p, w).calls;
            RunSpec(p, w).outcome.exitCode == 0
            <==> && w.preflightOk && !w.facts.dirtyWorktree
                 && ("unit" in selected ==> calls != [] && calls[0].result.status == "PASS")
                 && forall i :: 0 <= i < |calls| ==>
                      || calls[i].result.status == "PASS"
                      || (calls[i].result.status == "SKIPPED" && !calls[i].result.required
                          && calls[i].result.skipReason != "")
  {
    ExitMeans(p, w, selected);
    ManifestMeans(p, w);
    GreenCalls(RunSpec(p, w).outcome.manifest.stages, RunSpec(p, w).calls, w.preflightOk, w.facts.dirtyWorktree);
  }

  lemma GreenCalls(stages: seq<StageResult>, calls: seq<Call>, preflightOk: bool, dirtyWorktree: bool)
    requires |stages| == |calls| + 2 && stages[|calls| + 1] == StageResult("report", "PASS", true, "")
    requires stages[0].required && stages[0].status == if preflightOk then "PASS" else "FAIL"
    requires forall i :: 0 <= i < |calls| ==> stages[i + 1] == calls[i].result
    ensures AggregateOverallStatus(stages, dirtyWorktree) == "PASS"
            <==> && preflightOk && !dirtyWorktree
                 && forall i :: 0 <= i < |calls| ==>
                      || calls[i].result.status == "PASS"
                      || (calls[i].result.status == "SKIPPED" && !calls[i].result.required
                          && calls[i].result.skipReason != "")
  {
    OverallMeans(stages, dirtyWorktree);
    assert "FAIL"[0] != "PASS"[0] && "FAIL"[0] != "SKIPPED"[0];
    forall i | 0 <= i < |stages| ensures i == 0 || i == |calls| + 1 || stages[i] == calls[i - 1].result {
      if 0 < i < |calls| + 1 { assert stages[(i - 1) + 1] == calls[i - 1].result; }
    }
  }

  // ---- Which runs finish ----

  /** The name has a runner, or is `report`. */
  predicate Runnable(name: string) {
    name in ["report", "mcp_dependency_closure", "lint", "unit", "docs", "governance", "integration", "security",
             "containers"]
  }

  predicate ExplainsSkip(r: StageResult) { r.status == "SKIPPED" ==> r.skipReason != "" }

  predicate Explained(calls: seq<Call>) { forall i :: 0 <= i < |calls| ==> ExplainsSkip(calls[i].result) }

  /** When a run finishes, if every runner returns a result that explains its skips. */
  lemma FinishesIff(p: Params, w: World, selected: seq<string>)
    requires forall n: nat, name :: w.runner(n, name).Some? && ExplainsSkip(w.runner(n, name).value)
    requires Selects(p, w, selected)
    ensures RunSpec(p, w).outcome.Finished?
            <==> && w.faults == Faults(false, false, false, false) && !w.runDirExists
                 && (if p.sliceMode && p.profile == "fast" then "slice" else p.profile) in w.profiles
                 && ValidRunId(if p.runId != "" then p.runId else w.generatedId)
                 && (w.facts.repoName == "Claire_de_Binare" || w.facts.repoName == "claire_de_binare")
                 && (w.preflightOk && ("unit" in selected ==>
                                         w.runner(0, "mcp_dependency_closure").value.status == "PASS")
                     ==> forall name :: name in selected ==> Runnable(name))
  {
    if EffectiveProfile(p) in w.profiles {
      assert selected == Selected(p, w);
      StagesFinish(selected, w);
      BuildsIff(p, w, Stages(selected, w).0);
      BuildsIff(p, w, []);
    }
  }

  lemma BuildsIff(p: Params, w: World, calls: seq<Call>)
    requires Explained(calls)
    ensures ManifestOf(p, w, calls).Ok?
            <==> && ValidRunId(if p.runId != "" then p.runId else w.generatedId)
                 && (w.facts.repoName == "Claire_de_Binare" || w.facts.repoName == "claire_de_binare")
  {
    assert "PASS"[0] != "SKIPPED"[0] && "FAIL"[0] != "SKIPPED"[0];
    forall s | s in AllStages(w, calls) ensures ExplainsSkip(s) {
      var i :| 0 <= i < |AllStages(w, calls)| && AllStages(w, calls)[i] == s;
      if 0 < i < |calls| + 1 { assert s == calls[i - 1].result; }
    }
  }

  lemma StagesFinish(selected: seq<string>, w: World)
    requires forall n: nat, name :: w.runner(n, name).Some? && ExplainsSkip(w.runner(n, name).value)
    ensures Explained(Stages(selected, w).0) && !Stages(selected, w).1.RaisedIn?
    ensures Stages(selected, w).1 == Completed
            <==> (("unit" in selected ==> w.runner(0, "mcp_dependency_closure").value.status == "PASS")
                  ==> forall name :: name in selected ==> Runnable(name))
  {
    LoopFinishes(selected, w, []);
    LoopFinishes(selected, w, [Call(CLOSURE, w.runner(0, CLOSURE).value)]);
  }

  lemma {:induction false} LoopFinishes(names: seq<string>, w: World, before: seq<Call>)
    requires forall n: nat, name :: w.runner(n, name).Some? && ExplainsSkip(w.runner(n, name).value)
    requires Explained(before)
    ensures Explained(StageLoop(names, w, before).0) && !StageLoop(names, w, before).1.RaisedIn?
    ensures StageLoop(names, w, before).1 == Completed <==> forall name :: name in names ==> Runnable(name)
  {
    if names != [] {
      var rest, last := names[..|names| - 1], names[|names| - 1];
      LoopFinishes(rest, w, before);
      assert forall name :: name in names <==> name in rest || name == last;
      RunnableIff(last);
    }
  }

  lemma RunnableIff(name: string)
    ensures Runnable(name) <==> name == "report" || name in RUNNERS
  {
  }
}

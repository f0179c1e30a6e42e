/** The fail-closed evidence contract of ci/lib/evidence.py: stage results are aggregated
    into a manifest, and a gate decides whether a manifest may be published.

    Statuses are strings, as in the JSON the gate reads. An absent `skip_reason` and an
    empty one are the same value "" here: every test in the source is by truthiness. */
module Evidence {
  import opened Wrappers
  import opened Text

  datatype StageResult = StageResult(name: string, status: string, required: bool, skipReason: string)

  /** What a key of a loaded manifest holds that the gate compares with `True` or `False`: nothing,
      a JSON boolean, or any other value (null, a number, text). */
  datatype JsonFlag = Missing | Flag(b: bool) | NotBoolean(value: string)

  /** Fields the gate reads through `str` or by truthiness are that text or that truth value. */
  datatype Manifest = Manifest(
    schemaVersion: string, runId: string, commitSha: string, repoName: string,
    dirtyWorktree: JsonFlag, mergeEvidence: JsonFlag, profile: string,
    stages: seq<StageResult>, artifactHashes: map<string, string>, overallStatus: string,
    startedAt: string, endedAt: string)

  const SCHEMA_VERSION := "cdb-local-ci-evidence/v1"
  const REQUIRED_STAGES := ["lint", "unit", "docs", "governance"]
  const REPO_NAMES := {"Claire_de_Binare", "claire_de_binare"}

  // ---- Building a manifest ----

  function AggregateOverallStatus(stages: seq<StageResult>, dirtyWorktree: bool): string {
    if dirtyWorktree then "BLOCKED"
    else if exists s :: s in stages && s.status == "SKIPPED" && (s.required || s.skipReason == "") then "FAIL"
    else if exists s :: s in stages && s.status == "FAIL" then "FAIL"
    else if exists s :: s in stages && s.status == "BLOCKED" then "BLOCKED"
    else if stages == [] then "FAIL"
    else if forall s :: s in stages ==> s.status == "PASS" || s.status == "SKIPPED" then
      if exists s :: s in stages && s.required && s.status != "PASS" then "FAIL" else "PASS"
    else "FAIL"
  }

  /** The overall status: PASS exactly for a clean tree and stages that all pass or are optional and
      skipped for a reason; BLOCKED for a dirty tree, or if no stage fails and some is blocked. */
  lemma OverallMeans(stages: seq<StageResult>, dirtyWorktree: bool)
    ensures var overall := AggregateOverallStatus(stages, dirtyWorktree);
            && (overall == "PASS"
                <==> && !dirtyWorktree && stages != []
                     && forall i :: 0 <= i < |stages| ==>
                          stages[i].status == "PASS"
                          || (stages[i].status == "SKIPPED" && !stages[i].required && stages[i].skipReason != ""))
            && (overall == "BLOCKED"
                <==> || dirtyWorktree
                     || ((exists i :: 0 <= i < |stages| && stages[i].status == "BLOCKED")
                         && forall i :: 0 <= i < |stages| ==>
                              && stages[i].status != "FAIL"
                              && (stages[i].status == "SKIPPED" ==>
                                    !stages[i].required && stages[i].skipReason != "")))
            && (overall == "PASS" || overall == "BLOCKED" || overall == "FAIL")
  {
    assert "PASS"[0] == 'P' && "BLOCKED"[0] == 'B' && "FAIL"[0] == 'F' && "SKIPPED"[0] == 'S';
    assert forall i :: 0 <= i < |stages| ==> stages[i] in stages;
  }

  predicate SkipsExplained(stages: seq<StageResult>) {
    forall s :: s in stages && s.status == "SKIPPED" ==> s.skipReason != ""
  }

  predicate IsAlnum(c: char) {
    'a' <= c <= 'z' || 'A' <= c <= 'Z' || '0' <= c <= '9'
  }

  /** `RUN_ID_RE`; Python's `$` also matches before one trailing newline. */
  predicate ValidRunId(runId: string) {
    RunIdBody(if runId != "" && runId[|runId| - 1] == '\n' then runId[..|runId| - 1] else runId)
  }

  predicate RunIdBody(body: string) {
    && 8 <= |body| <= 128
    && IsAlnum(body[0])
    && forall i :: 0 < i < |body| ==> IsAlnum(body[i]) || body[i] == '.' || body[i] == '_' || body[i] == '-'
  }

  datatype RunFacts = RunFacts(
    runId: string, commitSha: string, repoName: string, dirtyWorktree: bool,
    startedAt: string, endedAt: string, artifactHashes: map<string, string>)

  function BuildManifest(f: RunFacts, profile: string, stages: seq<StageResult>, mergeEvidence: bool): Result<Manifest>
  {
    if !ValidRunId(f.runId) then Err("Invalid run_id")
    else if f.repoName !in REPO_NAMES then Err("Foreign or unexpected repository name")
    else if !SkipsExplained(stages) then Err("SKIPPED without explicit skip_reason")
    else Ok(Manifest(
              SCHEMA_VERSION, f.runId, f.commitSha, f.repoName, Flag(f.dirtyWorktree),
              Flag(mergeEvidence && profile != "slice"), profile, stages, f.artifactHashes,
              AggregateOverallStatus(stages, f.dirtyWorktree), f.startedAt, f.endedAt))
  }

  /** When the builder succeeds, and what it writes: the run_id has 8 to 128 letters, digits, dots,
      underscores and hyphens (the first a letter or digit), and perhaps a line break at the end. */
  lemma BuildMeans(f: RunFacts, profile: string, stages: seq<StageResult>, mergeEvidence: bool)
    ensures var m := BuildManifest(f, profile, stages, mergeEvidence);
            && (m.Ok? <==>
                && (exists n :: |f.runId| - 1 <= n <= |f.runId| && 8 <= n <= 128 && RunIdChars(f.runId, n)
                                && (n < |f.runId| ==> f.runId[n] == '\n'))
                && (f.repoName == "Claire_de_Binare" || f.repoName == "claire_de_binare")
                && (forall i :: 0 <= i < |stages| && stages[i].status == "SKIPPED" ==> stages[i].skipReason != ""))
            && (m.Ok? ==>
                  && m.value.schemaVersion == "cdb-local-ci-evidence/v1" && m.value.runId == f.runId
                  && m.value.commitSha == f.commitSha && m.value.repoName == f.repoName
                  && m.value.dirtyWorktree == Flag(f.dirtyWorktree)
                  && m.value.mergeEvidence == Flag(mergeEvidence && profile != "slice")
                  && m.value.profile == profile && m.value.stages == stages
                  && m.value.artifactHashes == f.artifactHashes
                  && m.value.startedAt == f.startedAt && m.value.endedAt == f.endedAt
                  && m.value.overallStatus == AggregateOverallStatus(stages, f.dirtyWorktree))
  {
    RunIdMeans(f.runId);
    assert forall i :: 0 <= i < |stages| ==> stages[i] in stages;
  }

  predicate RunIdChars(runId: string, n: nat)
    requires n <= |runId|
  {
    forall i :: 0 <= i < n ==>
      || 'a' <= runId[i] <= 'z' || 'A' <= runId[i] <= 'Z' || '0' <= runId[i] <= '9'
      || (i > 0 && runId[i] in ['.', '_', '-'])
  }

  lemma RunIdMeans(runId: string)
    ensures ValidRunId(runId)
            <==> exists n :: |runId| - 1 <= n <= |runId| && 8 <= n <= 128 && RunIdChars(runId, n)
                             && (n < |runId| ==> runId[n] == '\n')
  {
    var body := if runId != "" && runId[|runId| - 1] == '\n' then runId[..|runId| - 1] else runId;
    if ValidRunId(runId) { assert RunIdChars(runId, |body|); }
    if n :| |runId| - 1 <= n <= |runId| && 8 <= n <= 128 && RunIdChars(runId, n) && (n < |runId| ==> runId[n] == '\n') {
      assert n == |runId| ==> body == runId;
      assert body == runId[..n];
    }
  }

  // ---- The publish gate ----

  /** The entry `by_name[name]` ends up with: the last stage of that name. */
  function LastNamed(stages: seq<StageResult>, name: string): Option<StageResult> {
    if stages == [] then None
    else if stages[|stages| - 1].name == name then Some(stages[|stages| - 1])
    else LastNamed(stages[..|stages| - 1], name)
  }

  predicate LastPassed(stages: seq<StageResult>, name: string) {
    var last := LastNamed(stages, name);
    last.Some? && last.value.status == "PASS"
  }

  predicate StageTolerated(s: StageResult) {
    && (s.required ==> s.status == "PASS")
    && (s.status == "SKIPPED" ==> s.skipReason != "")
  }

  predicate Publishable(m: Manifest, required: seq<string>) {
    && m.dirtyWorktree != Flag(true)
    && m.mergeEvidence != Flag(false)
    && m.profile != "slice"
    && m.overallStatus == "PASS"
    && (forall s :: s in m.stages ==> StageTolerated(s))
    && (forall name :: name in required ==> LastPassed(m.stages, name))
  }

  /** The stage at `i` is the last one of its name. */
  predicate LastOfName(stages: seq<StageResult>, i: nat)
    requires i < |stages|
  {
    forall j :: i < j < |stages| ==> stages[j].name != stages[i].name
  }

  /** What the gate demands, in the fields of the manifest; of stages with one name the last counts. */
  lemma PublishableMeans(m: Manifest, required: seq<string>)
    ensures Publishable(m, required)
            <==> && m.dirtyWorktree != Flag(true) && m.mergeEvidence != Flag(false) && m.profile != "slice"
                 && m.overallStatus == "PASS"
                 && (forall i :: 0 <= i < |m.stages| ==>
                      && (m.stages[i].required ==> m.stages[i].status == "PASS")
                      && (m.stages[i].status == "SKIPPED" ==> m.stages[i].skipReason != ""))
                 && (forall k :: 0 <= k < |required| ==>
                      exists i :: 0 <= i < |m.stages| && m.stages[i].name == required[k]
                                  && m.stages[i].status == "PASS" && LastOfName(m.stages, i))
  {
    assert forall i :: 0 <= i < |m.stages| ==> m.stages[i] in m.stages;
    forall k | 0 <= k < |required|
      ensures LastPassed(m.stages, required[k])
              <==> exists i :: 0 <= i < |m.stages| && m.stages[i].name == required[k]
                               && m.stages[i].status == "PASS" && LastOfName(m.stages, i)
    {
      var at := LastNamedAt(m.stages, required[k]);
      if at < |m.stages| { assert LastOfName(m.stages, at); }
    }
    assert (forall name :: name in required ==> LastPassed(m.stages, name))
      <==> (forall k :: 0 <= k < |required| ==> LastPassed(m.stages, required[k]));
  }

  lemma {:induction false} LastNamedAt(stages: seq<StageResult>, name: string) returns (i: nat)
    ensures i <= |stages| && forall j :: i < j < |stages| ==> stages[j].name != name
    ensures if i < |stages| then stages[i].name == name && LastNamed(stages, name) == Some(stages[i])
            else LastNamed(stages, name).None? && forall j :: 0 <= j < |stages| ==> stages[j].name != name
  {
    i := |stages|;
    if stages != [] {
      var n := |stages| - 1;
      if stages[n].name == name {
        i := n;
      } else {
        var k := LastNamedAt(stages[..n], name);
        i := if k < n then k else |stages|;
      }
    }
  }

  /** `assert_publishable`, with the dictionary `by_name` filled as the stages go by. */
  method AssertPublishable(m: Manifest, required: seq<string>) returns (r: Result<()>)
    ensures r.Ok? <==> Publishable(m, required)
  {
    if m.dirtyWorktree == Flag(true) { return Err("Dirty worktree evidence cannot be published"); }
    if m.mergeEvidence == Flag(false) { return Err("merge_evidence=false cannot be published"); }
    if m.profile == "slice" { return Err("Slice profile evidence cannot be published"); }
    if m.overallStatus != "PASS" { return Err("overall_status is not PASS"); }
    var byName: map<string, StageResult> := map[];
    var i := 0;
    while i < |m.stages|
      invariant 0 <= i <= |m.stages|
      invariant forall s :: s in m.stages[..i] ==> StageTolerated(s)
      invariant forall name :: LastNamed(m.stages[..i], name) ==
                               if name in byName then Some(byName[name]) else None
    {
      var stage := m.stages[i];
      assert m.stages[..i + 1][..i] == m.stages[..i];
      byName := byName[stage.name := stage];
      if stage.required && stage.status == "SKIPPED" {
        assert !StageTolerated(stage);
        return Err("Required stage is SKIPPED");
      }
      if stage.required && stage.status != "PASS" {
        assert !StageTolerated(stage);
        return Err("Required stage is not PASS");
      }
      if stage.status == "SKIPPED" && stage.skipReason == "" {
        assert !StageTolerated(stage);
        return Err("SKIPPED without skip_reason");
      }
      i := i + 1;
    }
    assert m.stages[..i] == m.stages;
    var k := 0;
    while k < |required|
      invariant 0 <= k <= |required|
      invariant forall name :: name in required[..k] ==> LastPassed(m.stages, name)
    {
      if required[k] !in byName { assert !LastPassed(m.stages, required[k]); return Err("Required stage missing"); }
      if byName[required[k]].status != "PASS" {
        assert !LastPassed(m.stages, required[k]);
        return Err("Required stage is not PASS");
      }
      k := k + 1;
    }
    r := Ok(());
  }

  // ---- Gate and builder together ----

  /** The manifest builder succeeds and the gate accepts what it built. */
  predicate BuiltAndAccepted(f: RunFacts, profile: string, stages: seq<StageResult>, mergeEvidence: bool) {
    var m := BuildManifest(f, profile, stages, mergeEvidence);
    m.Ok? && Publishable(m.value, REQUIRED_STAGES)
  }

  predicate StageGreen(s: StageResult) {
    s.status == "PASS" || (s.status == "SKIPPED" && !s.required && s.skipReason != "")
  }

  /** The gate composed with the builder accepts exactly the clean, eligible, all-green runs. */
  lemma GateExact(f: RunFacts, profile: string, stages: seq<StageResult>, mergeEvidence: bool)
    ensures BuiltAndAccepted(f, profile, stages, mergeEvidence) <==>
            && ValidRunId(f.runId) && f.repoName in REPO_NAMES
            && !f.dirtyWorktree && mergeEvidence && profile != "slice"
            && (forall s :: s in stages ==> StageGreen(s))
            && (forall name :: name in REQUIRED_STAGES ==> LastPassed(stages, name))
  {
    assert "lint" in REQUIRED_STAGES;
    assert LastPassed([], "lint") == false;
    if forall s :: s in stages ==> StageGreen(s) {
      assert forall s :: s in stages ==> StageTolerated(s);
    }
  }

  /** The manifest says that the tree was clean and that the evidence is meant for merging. */
  predicate SaysClean(m: Manifest) { m.dirtyWorktree == Flag(false) && m.mergeEvidence == Flag(true) }

  /** The gate tests for `False` and `True` only. A manifest it accepts says clean and eligible
      exactly if both keys hold booleans; any other value, and no value, passes as well. */
  lemma CleanIffKeysBoolean(m: Manifest)
    requires Publishable(m, REQUIRED_STAGES)
    ensures SaysClean(m) <==> m.dirtyWorktree.Flag? && m.mergeEvidence.Flag?
  {
    assert m.dirtyWorktree.Flag? ==> m.dirtyWorktree == Flag(true) || m.dirtyWorktree == Flag(false);
    assert m.mergeEvidence.Flag? ==> m.mergeEvidence == Flag(true) || m.mergeEvidence == Flag(false);
  }

  /** The gate's verdict depends on the two keys only by these two tests: replacing what they hold
      by anything but a true `dirty_worktree` and a false `merge_evidence` changes nothing. */
  lemma GateIgnoresOtherFlags(m: Manifest, dirtyWorktree: JsonFlag, mergeEvidence: JsonFlag)
    requires Publishable(m, REQUIRED_STAGES)
    ensures Publishable(m.(dirtyWorktree := dirtyWorktree, mergeEvidence := mergeEvidence), REQUIRED_STAGES)
            <==> dirtyWorktree != Flag(true) && mergeEvidence != Flag(false)
  {
  }

  /** What the builder returns holds booleans in both keys, so what it built and the gate accepted is
      clean and eligible. */
  lemma BuiltIsClean(f: RunFacts, profile: string, stages: seq<StageResult>, mergeEvidence: bool)
    ensures var m := BuildManifest(f, profile, stages, mergeEvidence);
            && (m.Ok? ==> m.value.mergeEvidence.Flag? && m.value.dirtyWorktree.Flag?)
            && (BuiltAndAccepted(f, profile, stages, mergeEvidence) ==> SaysClean(m.value))
  {
    var m := BuildManifest(f, profile, stages, mergeEvidence);
    if BuiltAndAccepted(f, profile, stages, mergeEvidence) { CleanIffKeysBoolean(m.value); }
  }

  /** `t` is no better than `s`: it stays the same, or a PASS is lost to an explained optional
      skip, or the status is neither PASS nor SKIPPED; or the stage turns required. */
  predicate Worse(s: StageResult, t: StageResult) {
    && s.name == t.name
    && (s.required ==> t.required)
    && (t.status == "PASS" ==> s.status == "PASS")
    && (t.status == "SKIPPED" ==> s.status == "PASS" || (s.status == "SKIPPED" && s.skipReason == t.skipReason))
  }

  lemma {:induction false} WorseLast(s: seq<StageResult>, t: seq<StageResult>, name: string)
    requires |s| == |t| && forall i :: 0 <= i < |s| ==> Worse(s[i], t[i])
    requires LastPassed(t, name)
    ensures LastPassed(s, name)
  {
    var n := |s| - 1;
    assert Worse(s[n], t[n]);
    if t[n].name != name {
      WorseLast(s[..n], t[..n], name);
    }
  }

  /** Worsening any stages of a run never turns a rejection into an acceptance. */
  lemma GateMonotone(f: RunFacts, profile: string, s: seq<StageResult>, t: seq<StageResult>, mergeEvidence: bool)
    requires |s| == |t| && forall i :: 0 <= i < |s| ==> Worse(s[i], t[i])
    requires !BuiltAndAccepted(f, profile, s, mergeEvidence)
    ensures !BuiltAndAccepted(f, profile, t, mergeEvidence)
  {
    GateExact(f, profile, s, mergeEvidence);
    GateExact(f, profile, t, mergeEvidence);
    if BuiltAndAccepted(f, profile, t, mergeEvidence) {
      forall x | x in s ensures StageGreen(x) {
        var i :| 0 <= i < |s| && s[i] == x;
        assert Worse(s[i], t[i]) && StageGreen(t[i]);
      }
      forall name | name in REQUIRED_STAGES ensures LastPassed(s, name) {
        WorseLast(s, t, name);
      }
    }
  }

  /** A run_id the manifest builder accepts contains no colon. */
  lemma ValidRunIdHasNoColon(runId: string)
    requires ValidRunId(runId)
    ensures NoColon(runId)
  {
    var body := if runId[|runId| - 1] == '\n' then runId[..|runId| - 1] else runId;
    assert RunIdBody(body);
    forall i | 0 <= i < |runId| ensures runId[i] != ':' {
      if i < |body| { assert runId[i] == body[i]; }
    }
  }
}

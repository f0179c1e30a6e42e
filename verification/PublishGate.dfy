/** The gates of `cmd_publish` before anything is written: `validate_evidence_for_publish`
    (ci/publisher/evidence.py), the payload it leads to (ci/publisher/models.py), and the live
    checks of ci/publisher/cli.py. SHA-256, JSON parsing and timestamp parsing are parameters. */
module PublishGate {
  import opened Wrappers
  import opened Text
  import opened Evidence
  import opened Ledger

  const CHECK_RUN_NAME := "cdb-local-ci"
  const SHADOW_CHECK_RUN_NAME := "cdb-local-ci-app-preview"
  const DEFAULT_STATUS_CONTEXT := "cdb-local-ci"
  const REPOSITORY := "jannekbuengener/Claire_de_Binare"

  datatype Oracle = Oracle(
    sha256: string -> string, parse: string -> Option<Manifest>, seconds: string -> Option<int>)

  /** An evidence directory; `recordedDigest` is the first word of manifest.sha256, if any. */
  datatype EvidenceDir = EvidenceDir(
    manifestJson: Option<string>, recordedDigest: Option<string>, files: map<string, string>)

  datatype PublishArgs = PublishArgs(
    commitSha: string, statusContext: string, checkRunName: string, prNumber: int,
    freshnessHours: real, expectedApp: int, tokenApp: int)

  /** What the live reads of `cmd_publish` found, each at its own moment. */
  datatype LiveChecks = LiveChecks(
    repositoryResolves: bool, commitExists: bool, prHeadAtGate: string, policyPasses: bool,
    worktreeClean: bool, commitStillExists: bool, prHeadAtPublish: string)

  datatype PublishRequest = PublishRequest(dir: EvidenceDir, args: PublishArgs, live: LiveChecks, now: int)

  datatype Payload = Payload(name: string, headSha: string, conclusion: string, externalId: string)

  function ExternalId(runId: string, commitSha: string): string {
    runId + ":" + Lower(commitSha)
  }

  // ---- Evidence validation ----

  function LoadManifest(o: Oracle, dir: EvidenceDir, commitSha: string): Option<Manifest> {
    if dir.manifestJson.None? || dir.recordedDigest.None? then None
    else if o.sha256(dir.manifestJson.value) != dir.recordedDigest.value then None
    else
      var m := o.parse(dir.manifestJson.value);
      if m.None? || m.value.schemaVersion != SCHEMA_VERSION || m.value.repoName !in REPO_NAMES then None
      else if Lower(m.value.commitSha) != Lower(commitSha) then None
      else if m.value.dirtyWorktree == Flag(true) && m.value.overallStatus != "BLOCKED" then None
      else m
  }

  predicate ArtifactsVerified(o: Oracle, dir: EvidenceDir, m: Manifest) {
    && m.artifactHashes != map[]
    && forall rel :: rel in m.artifactHashes ==> rel in dir.files && o.sha256(dir.files[rel]) == m.artifactHashes[rel]
  }

  predicate Fresh(o: Oracle, m: Manifest, maxAgeHours: real, now: int) {
    && maxAgeHours > 0.0
    && o.seconds(m.endedAt).Some?
    && 0 <= now - o.seconds(m.endedAt).value
    && (now - o.seconds(m.endedAt).value) as real <= maxAgeHours * 3600.0
  }

  /** `validate_evidence_for_publish` returns ok, with manifest `m`. */
  predicate EvidenceAccepted(o: Oracle, req: PublishRequest, m: Manifest) {
    && LoadManifest(o, req.dir, req.args.commitSha) == Some(m)
    && ArtifactsVerified(o, req.dir, m)
    && Fresh(o, m, req.args.freshnessHours, req.now)
    && Publishable(m, REQUIRED_STAGES)
    && req.live.repositoryResolves
  }

  /** The policy gate ran on the head of a pull request, and passed. */
  predicate PolicyGatePassed(req: PublishRequest) {
    && req.args.prNumber > 0 && req.live.policyPasses
    && req.live.prHeadAtGate != "" && Lower(req.live.prHeadAtGate) == Lower(req.args.commitSha)
  }

  /** `_require_pr_for_required_context`, `enforce_policy_gate_for_pr` and the later live reads. */
  predicate LivePassed(req: PublishRequest) {
    && (req.args.statusContext == DEFAULT_STATUS_CONTEXT ==> req.args.prNumber > 0)
    && req.live.commitExists && req.live.worktreeClean && req.live.commitStillExists
    && (req.args.prNumber > 0 ==>
          && req.live.prHeadAtGate != "" && Lower(req.live.prHeadAtGate) == Lower(req.args.commitSha)
          && req.live.policyPasses
          && req.live.prHeadAtPublish != "" && Lower(req.live.prHeadAtPublish) == Lower(req.args.commitSha))
  }

  /** `_build_check_run_from_validation` and the payload constructor raise nothing. */
  predicate PayloadBuilds(m: Manifest) {
    m.startedAt != "" && m.endedAt != "" && m.commitSha != "" && m.runId != ""
  }

  function PayloadFor(req: PublishRequest, m: Manifest): Payload {
    Payload(if req.args.checkRunName != "" then req.args.checkRunName else CHECK_RUN_NAME,
            m.commitSha, "success", ExternalId(m.runId, m.commitSha))
  }

  /** Everything `cmd_publish` demands before it hands the payload to the backend. */
  predicate Admitted(o: Oracle, req: PublishRequest, m: Manifest, ledger: Content) {
    && EvidenceAccepted(o, req, m) && LivePassed(req) && PayloadBuilds(m)
    && LoadLedger(ledger).Ok? && RunIdFree(LoadLedger(ledger).value, m.runId, m.commitSha)
    && req.args.expectedApp > 0
  }

  /** `verify_artifact_hashes`: every recorded artifact exists with the recorded digest. */
  method VerifyArtifacts(o: Oracle, dir: EvidenceDir, m: Manifest) returns (ok: bool)
    ensures ok <==> ArtifactsVerified(o, dir, m)
  {
    if m.artifactHashes == map[] { return false; }
    var todo := m.artifactHashes.Keys;
    while todo != {}
      invariant todo <= m.artifactHashes.Keys
      invariant forall rel :: rel in m.artifactHashes.Keys - todo ==>
                  rel in dir.files && o.sha256(dir.files[rel]) == m.artifactHashes[rel]
      decreases |todo|
    {
      var rel :| rel in todo;
      if rel !in dir.files { return false; }
      if o.sha256(dir.files[rel]) != m.artifactHashes[rel] { return false; }
      todo := todo - {rel};
    }
    ok := true;
  }

  /** `validate_evidence_for_publish`, check by check. */
  method ValidateEvidence(o: Oracle, req: PublishRequest) returns (r: Option<Manifest>)
    ensures forall m :: r == Some(m) <==> EvidenceAccepted(o, req, m)
  {
    r := LoadManifest(o, req.dir, req.args.commitSha);
    if r.None? { return; }
    var m := r.value;
    var verified := VerifyArtifacts(o, req.dir, m);
    if !verified { return None; }
    if !Fresh(o, m, req.args.freshnessHours, req.now) { return None; }
    var gate := AssertPublishable(m, REQUIRED_STAGES);
    if gate.Err? { return None; }
    if !req.live.repositoryResolves { return None; }
  }

  /** Exactly what lets evidence into the publish step, in the fields of the evidence directory. */
  lemma EvidenceMeans(o: Oracle, req: PublishRequest, m: Manifest)
    ensures EvidenceAccepted(o, req, m)
            <==> && req.dir.manifestJson.Some? && o.parse(req.dir.manifestJson.value) == Some(m)
                 && req.dir.recordedDigest == Some(o.sha256(req.dir.manifestJson.value))
                 && m.schemaVersion == "cdb-local-ci-evidence/v1"
                 && (m.repoName == "Claire_de_Binare" || m.repoName == "claire_de_binare")
                 && Lower(m.commitSha) == Lower(req.args.commitSha)
                 && (exists rel :: rel in m.artifactHashes)
                 && (forall rel :: rel in m.artifactHashes ==>
                      rel in req.dir.files && o.sha256(req.dir.files[rel]) == m.artifactHashes[rel])
                 && o.seconds(m.endedAt).Some? && 0.0 < req.args.freshnessHours
                 && 0.0 <= (req.now - o.seconds(m.endedAt).value) as real <= req.args.freshnessHours * 3600.0
                 && Publishable(m, ["lint", "unit", "docs", "governance"])
                 && req.live.repositoryResolves
  {
    assert m.artifactHashes != map[] <==> exists rel :: rel in m.artifactHashes;
  }

  /** And exactly what lets a request through to the backend, in its own fields: the gates read the
      pull request's head twice, and the commit twice. */
  lemma AdmittedMeans(o: Oracle, req: PublishRequest, m: Manifest, ledger: Content)
    ensures Admitted(o, req, m, ledger)
            <==> && EvidenceAccepted(o, req, m)
                 && (req.args.statusContext == "cdb-local-ci" ==> req.args.prNumber > 0)
                 && req.live.commitExists && req.live.worktreeClean && req.live.commitStillExists
                 && (req.args.prNumber > 0 ==>
                      && req.live.prHeadAtGate != "" && req.live.prHeadAtPublish != "" && req.live.policyPasses
                      && Lower(req.live.prHeadAtGate) == Lower(req.args.commitSha) == Lower(req.live.prHeadAtPublish))
                 && "" !in [m.startedAt, m.endedAt, m.commitSha, m.runId]
                 && LoadLedger(ledger).Ok?
                 && (forall e :: e in LoadLedger(ledger).value && e.runId == m.runId ==> e.commitSha == m.commitSha)
                 && req.args.expectedApp > 0
  {
  }

  /** The live gates of `cmd_publish` around the ledger's pre-check, in the order of the code. */
  method PassGates(o: Oracle, req: PublishRequest, ledger: Content) returns (r: Option<Manifest>)
    ensures forall m :: r == Some(m) <==> Admitted(o, req, m, ledger)
    ensures r.Some? ==>
              && (req.args.statusContext == "cdb-local-ci" ==> req.args.prNumber > 0)
              && req.live.commitExists && req.live.worktreeClean && req.live.commitStillExists
              && (req.args.prNumber > 0 ==>
                    && req.live.prHeadAtGate != "" && req.live.prHeadAtPublish != "" && req.live.policyPasses
                    && Lower(req.live.prHeadAtGate) == Lower(req.args.commitSha) == Lower(req.live.prHeadAtPublish))
              && LoadLedger(ledger).Ok?
              && forall e :: e in LoadLedger(ledger).value && e.runId == r.value.runId ==>
                   e.commitSha == r.value.commitSha
  {
    var (args, live) := (req.args, req.live);
    if args.statusContext == DEFAULT_STATUS_CONTEXT && args.prNumber <= 0 { return None; }
    var accepted := ValidateEvidence(o, req);
    if accepted.None? { return None; }
    var m := accepted.value;
    if !live.commitExists { return None; }
    if args.prNumber > 0 {
      if live.prHeadAtGate == "" || Lower(live.prHeadAtGate) != Lower(args.commitSha) { return None; }
      if !live.policyPasses { return None; }
    }
    var loaded := LoadLedger(ledger);
    if loaded.Err? { return None; }
    if !RunIdFree(loaded.value, m.runId, m.commitSha) { return None; }
    if !live.worktreeClean { return None; }
    if !live.commitStillExists { return None; }
    if args.prNumber > 0 && (live.prHeadAtPublish == "" || Lower(live.prHeadAtPublish) != Lower(args.commitSha)) {
      return None;
    }
    if !PayloadBuilds(m) { return None; }
    if args.expectedApp <= 0 { return None; }
    r := accepted;
  }

  // ---- External ids ----

  lemma LongerRunIdHasColon(r1: string, s1: string, r2: string, s2: string)
    requires ExternalId(r1, s1) == ExternalId(r2, s2) && |r1| < |r2|
    ensures !NoColon(s1) && !NoColon(r2)
  {
    var e := ExternalId(r1, s1);
    LowerKeepsColons(s1);
    assert e[|r1|] == ':' && e[|r2|] == ':';
    assert r2[|r1|] == e[|r1|];
    assert Lower(s1)[|r2| - |r1| - 1] == e[|r2|];
    assert s1[|r2| - |r1| - 1] == ':';
  }

  /** An external id gives back run_id and SHA when the SHAs, or the run_ids, have no colon. */
  lemma ExternalIdDetermines(r1: string, s1: string, r2: string, s2: string)
    requires ExternalId(r1, s1) == ExternalId(r2, s2)
    requires (NoColon(s1) && NoColon(s2)) || (NoColon(r1) && NoColon(r2))
    ensures r1 == r2 && Lower(s1) == Lower(s2)
  {
    if |r1| < |r2| { LongerRunIdHasColon(r1, s1, r2, s2); }
    if |r2| < |r1| { LongerRunIdHasColon(r2, s2, r1, s1); }
    var e := ExternalId(r1, s1);
    assert r1 == e[..|r1|] && r2 == e[..|r1|];
    assert Lower(s1) == e[|r1| + 1..] && Lower(s2) == e[|r1| + 1..];
  }

  /** For run_ids the manifest builder accepts, no assumption on the SHAs is needed. */
  lemma ValidRunIdsDetermine(r1: string, s1: string, r2: string, s2: string)
    requires ValidRunId(r1) && ValidRunId(r2) && ExternalId(r1, s1) == ExternalId(r2, s2)
    ensures r1 == r2 && Lower(s1) == Lower(s2)
  {
    ValidRunIdHasNoColon(r1);
    ValidRunIdHasNoColon(r2);
    ExternalIdDetermines(r1, s1, r2, s2);
  }

  /** Without either, two runs share an external id: the manifest reader checks no run_id. */
  lemma ColonsCollide()
    ensures ExternalId("a:b", "c") == ExternalId("a", "b:c")
    ensures Lower("c") != Lower("b:c")
  {
    assert Lower("c") == "c" && Lower("b:c") == "b:c";
  }
}

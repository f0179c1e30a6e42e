/** Concrete requests and histories: inputs on which the publisher does not do what one might
    expect of it. */
module ProtocolExamples {
  import opened Wrappers
  import opened Text
  import opened Evidence
  import opened Ledger
  import opened PublishGate
  import opened Protocol
  import opened ProtocolInvariants
  import opened ProtocolTheorems

  // ---- Requests ----

  const GREEN_STAGES := [
    StageResult("lint", "PASS", true, ""), StageResult("unit", "PASS", true, ""),
    StageResult("docs", "PASS", true, ""), StageResult("governance", "PASS", true, "")]

  /** A green manifest, whatever its two flags hold. */
  function ManifestWith(dirtyWorktree: JsonFlag, mergeEvidence: JsonFlag): Manifest {
    Manifest(SCHEMA_VERSION, "run-0001", "c0ffee", "Claire_de_Binare", dirtyWorktree, mergeEvidence, "fast",
             GREEN_STAGES, map["log" := "digest"], "PASS", "start", "end")
  }

  /** Every text has the same digest, and parses to `m`. */
  function OracleFor(m: Manifest): Oracle { Oracle(_ => "digest", _ => Some(m), _ => Some(0)) }

  function RequestWith(statusContext: string): PublishRequest {
    PublishRequest(
      EvidenceDir(Some("json"), Some("digest"), map["log" := "text"]),
      PublishArgs("c0ffee", statusContext, "", 0, 1.0, 7, 7),
      LiveChecks(true, true, "", true, true, true, ""), 0)
  }

  lemma GreenStagesPass()
    ensures forall s :: s in GREEN_STAGES ==> StageTolerated(s)
    ensures forall name :: name in REQUIRED_STAGES ==> LastPassed(GREEN_STAGES, name)
  {
    var s3 := GREEN_STAGES[..3];
    var s2 := s3[..2];
    var s1 := s2[..1];
    assert LastNamed(s1, "lint") == Some(GREEN_STAGES[0]);
    assert LastNamed(s2, "unit") == Some(GREEN_STAGES[1]);
    assert LastNamed(s2, "lint") == LastNamed(s1, "lint") by { assert "lint"[0] != "unit"[0]; }
    NotDocs();
    assert LastNamed(s3, "docs") == Some(GREEN_STAGES[2]);
    assert LastNamed(s3, "lint") == LastNamed(s2, "lint") && LastNamed(s3, "unit") == LastNamed(s2, "unit");
  }

  lemma NotDocs()
    ensures "docs" != "lint" && "docs" != "unit" && "governance" != "lint" && "governance" != "unit"
              && "governance" != "docs"
  {
    assert "docs"[0] == 'd' && "lint"[0] == 'l' && "unit"[0] == 'u' && "governance"[0] == 'g';
  }

  /** Evidence is admitted whatever its flags hold but a true dirty_worktree and a false
      merge_evidence, and without a pull request under any status context but the default one. */
  lemma GreenAdmitted(dirtyWorktree: JsonFlag, mergeEvidence: JsonFlag, statusContext: string)
    requires dirtyWorktree != Flag(true) && mergeEvidence != Flag(false) && statusContext != DEFAULT_STATUS_CONTEXT
    ensures var m := ManifestWith(dirtyWorktree, mergeEvidence);
            Admitted(OracleFor(m), RequestWith(statusContext), m, Absent)
  {
    GreenStagesPass();
    var m := ManifestWith(dirtyWorktree, mergeEvidence);
    var (o, req) := (OracleFor(m), RequestWith(statusContext));
    assert Publishable(m, REQUIRED_STAGES);
    assert LoadManifest(o, req.dir, "c0ffee") == Some(m);
    assert "log" in m.artifactHashes;
    assert ArtifactsVerified(o, req.dir, m);
    assert Fresh(o, m, 1.0, 0);
    assert LivePassed(req);
    assert PayloadBuilds(m);
    assert LoadLedger(Absent) == Ok([]);
  }

  // ---- Histories ----

  const GREEN := ManifestWith(Flag(false), Flag(true))

  /** Nothing anywhere yet. */
  const START := State([], Absent, Idle(Nothing), map[])

  lemma GreenCanBegin(dirtyWorktree: JsonFlag, mergeEvidence: JsonFlag, statusContext: string)
    requires dirtyWorktree != Flag(true) && mergeEvidence != Flag(false) && statusContext != DEFAULT_STATUS_CONTEXT
    ensures var m := ManifestWith(dirtyWorktree, mergeEvidence);
            && Init(START) && Inv(OracleFor(m), START) && NoColon(m.commitSha)
            && Enabled(OracleFor(m), START, BeginPublish(RequestWith(statusContext), m))
  {
    GreenAdmitted(dirtyWorktree, mergeEvidence, statusContext);
    InitInv(OracleFor(ManifestWith(dirtyWorktree, mergeEvidence)), START);
  }

  /** Such evidence is published under cdb-local-ci, without a pull request and so without the policy
      gate, although its manifest need not say that the tree was clean or that it is for merging. */
  lemma AnyFlagsPublished(dirtyWorktree: JsonFlag, mergeEvidence: JsonFlag, statusContext: string)
    returns (steps: seq<Step>)
    requires dirtyWorktree != Flag(true) && mergeEvidence != Flag(false) && statusContext != DEFAULT_STATUS_CONTEXT
    ensures var (m, req) := (ManifestWith(dirtyWorktree, mergeEvidence), RequestWith(statusContext));
            var t := Run(START, steps);
            && Init(START) && Legal(OracleFor(m), START, steps)
            && t.remote == [RunOf(PublishJob(req, m), 1)] && t.remote[0].name == CHECK_RUN_NAME
            && EvidenceAccepted(OracleFor(m), req, m) && !PolicyGatePassed(req)
  {
    var m := ManifestWith(dirtyWorktree, mergeEvidence);
    GreenCanBegin(dirtyWorktree, mergeEvidence, statusContext);
    steps := PublishSucceeds(OracleFor(m), START, RequestWith(statusContext), m, 1, "now");
  }

  /** Neither key: published, and the manifest does not say clean. */
  lemma MissingKeysPublished() returns (steps: seq<Step>)
    ensures Legal(OracleFor(ManifestWith(Missing, Missing)), START, steps)
    ensures Run(START, steps).remote == [RunOf(PublishJob(RequestWith("other"), ManifestWith(Missing, Missing)), 1)]
    ensures Run(START, steps).remote[0].name == CHECK_RUN_NAME && !SaysClean(ManifestWith(Missing, Missing))
  {
    steps := AnyFlagsPublished(Missing, Missing, "other");
  }

  /** Both keys, and neither a boolean, as in `"dirty_worktree": 1, "merge_evidence": 0`. */
  lemma NonBooleansPublished() returns (steps: seq<Step>)
    ensures var m := ManifestWith(NotBoolean("1"), NotBoolean("0"));
            && Legal(OracleFor(m), START, steps)
            && Run(START, steps).remote == [RunOf(PublishJob(RequestWith("other"), m), 1)]
            && Run(START, steps).remote[0].name == CHECK_RUN_NAME && !SaysClean(m)
  {
    steps := AnyFlagsPublished(NotBoolean("1"), NotBoolean("0"), "other");
  }

  /** A crash between the POST and the append: the run has landed, nothing records it, and nothing
      is under way. This is where `UnrecordedForever` starts. */
  lemma CrashAfterPost(o: Oracle, s: State, req: PublishRequest, m: Manifest, id: int) returns (steps: seq<Step>)
    requires Inv(o, s) && Enabled(o, s, BeginPublish(req, m))
    requires NoColon(m.commitSha) && FreshId(s.remote, id) && NotLedgered(s, ExternalId(m.runId, m.commitSha))
    requires forall r :: r in s.remote && OnSha(r, m.commitSha) ==> r.externalId != ExternalId(m.runId, m.commitSha)
    ensures Legal(o, s, steps)
    ensures var (t, x) := (Run(s, steps), ExternalId(m.runId, m.commitSha));
            && id in t.posted && t.posted[id] == PublishJob(req, m) && RunOf(t.posted[id], id) in t.remote
            && NotLedgered(t, x) && !UnderWay(t, x)
  {
    var job := PublishJob(req, m);
    steps := OneMore(o, s, [], BeginPublish(req, m));
    steps := ListsNothing(o, s, steps, job);
    steps := OneMore(o, s, steps, PostReply(id));
    steps := OneMore(o, s, steps, Crash);
  }

  lemma LandedRunUnrecorded() returns (steps: seq<Step>)
    ensures Init(START) && Legal(OracleFor(GREEN), START, steps)
    ensures 1 in Run(START, steps).posted
    ensures var x := Run(START, steps).posted[1].payload.externalId;
            NotLedgered(Run(START, steps), x) && !UnderWay(Run(START, steps), x)
  {
    GreenCanBegin(Flag(false), Flag(true), "");
    steps := CrashAfterPost(OracleFor(GREEN), START, RequestWith(""), GREEN, 1);
  }

  /** An empty status context is admitted and published, and the ledger loads no more. This is where
      `UnloadableForever` starts. */
  lemma EmptyContextWedgesLedger() returns (steps: seq<Step>)
    ensures Init(START) && Legal(OracleFor(GREEN), START, steps)
    ensures Run(START, steps).proc.Idle? && Run(START, steps).proc.last.Done?
    ensures LoadLedger(Run(START, steps).ledger).Err?
  {
    GreenCanBegin(Flag(false), Flag(true), "");
    steps := PublishSucceeds(OracleFor(GREEN), START, RequestWith(""), GREEN, 1, "now");
    var e := EntryOf(PublishJob(RequestWith(""), GREEN), 1, "verified", "now");
    assert EntriesOf(Run(START, steps).ledger) == [e];
    assert !Loadable([e][0]);
  }

  // ---- The assumption on late writes ----

  /** A POST times out without having landed, the readback finds nothing, and the call fails. */
  lemma PostLost(o: Oracle, s: State, req: PublishRequest, m: Manifest) returns (steps: seq<Step>)
    requires Inv(o, s) && Enabled(o, s, BeginPublish(req, m)) && NoColon(m.commitSha)
    requires forall r :: r in s.remote && OnSha(r, m.commitSha) ==> r.externalId != ExternalId(m.runId, m.commitSha)
    ensures Legal(o, s, steps) && PostTimesOut(None) in steps && Run(s, steps) == s.(proc := Idle(Failed))
  {
    var job := PublishJob(req, m);
    steps := OneMore(o, s, [], BeginPublish(req, m));
    steps := ListsNothing(o, s, steps, job);
    steps := OneMore(o, s, steps, PostTimesOut(None));
    steps := FindsNothing(o, s, steps, job);
  }

  lemma FindsNothing(o: Oracle, s: State, before: seq<Step>, job: Job) returns (steps: seq<Step>)
    requires Legal(o, s, before) && Run(s, before) == s.(proc := RecoverNamed(job))
    requires forall r :: r in s.remote && OnSha(r, job.payload.headSha) ==> r.externalId != job.payload.externalId
    ensures Legal(o, s, steps) && before <= steps && Run(s, steps) == s.(proc := Idle(Failed))
  {
    NothingMatches(s, job);
    steps := OneMore(o, s, before, NamedReply([]));
    steps := OneMore(o, s, steps, AllReply);
  }

  /** The assumption on late writes is needed: the POST times out, the readback finds nothing, the
      retry publishes, and then the first POST lands after all: two runs share the external id. */
  lemma LateWriteDuplicates(o: Oracle, s: State, req: PublishRequest, m: Manifest, id: int, late: int, at: string)
    returns (lost: seq<Step>, retried: seq<Step>)
    requires Inv(o, s) && Enabled(o, s, BeginPublish(req, m)) && at != ""
    requires req.args.tokenApp == req.args.expectedApp && NoColon(m.commitSha)
    requires FreshId(s.remote, id) && FreshId(s.remote, late) && id != late
    requires forall r :: r in s.remote && OnSha(r, m.commitSha) ==> r.externalId != ExternalId(m.runId, m.commitSha)
    ensures Legal(o, s, lost) && PostTimesOut(None) in lost && Run(s, lost) == s.(proc := Idle(Failed))
    ensures Legal(o, Run(s, lost), retried)
    ensures var (job, t) := (PublishJob(req, m), Run(Run(s, lost), retried));
            && t.proc == Idle(Done(job, id, false, "verified")) && FreshId(t.remote, late)
            && RunOf(job, id) in Land(t, job, Some(late)).remote && RunOf(job, late) in Land(t, job, Some(late)).remote
            && RunOf(job, id) != RunOf(job, late) && RunOf(job, id).externalId == RunOf(job, late).externalId
  {
    lost := PostLost(o, s, req, m);
    RunInv(o, s, lost);
    retried := PublishSucceeds(o, Run(s, lost), req, m, id, at);
    LandsAgain(s.remote, PublishJob(req, m), id, late, Run(Run(s, lost), retried));
  }

  lemma LandsAgain(remote: seq<CheckRun>, job: Job, id: int, late: int, t: State)
    requires t.remote == remote + [RunOf(job, id)] && FreshId(remote, late) && id != late
    ensures FreshId(t.remote, late)
    ensures RunOf(job, id) in Land(t, job, Some(late)).remote && RunOf(job, late) in Land(t, job, Some(late)).remote
  {
    var after := Land(t, job, Some(late)).remote;
    assert after == t.remote + [RunOf(job, late)];
    assert after[|remote|] == RunOf(job, id) && after[|remote| + 1] == RunOf(job, late);
  }
}

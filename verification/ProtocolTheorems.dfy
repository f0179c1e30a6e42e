/** The promises of the publisher, over every legal history of the protocol. */
module ProtocolTheorems {
  import opened Wrappers
  import opened Text
  import opened Evidence
  import opened Ledger
  import opened PublishGate
  import opened Protocol
  import opened ProtocolInvariants

  lemma PostedRunIsItself(o: Oracle, s: State, r: CheckRun)
    requires Inv(o, s) && r in s.remote && r.id in s.posted
    ensures r == RunOf(s.posted[r.id], r.id)
  {
    var q := RunOf(s.posted[r.id], r.id);
    var i :| 0 <= i < |s.remote| && s.remote[i] == r;
    var j :| 0 <= j < |s.remote| && s.remote[j] == q;
  }

  /** At most once: no two runs this publisher created share an external id. */
  lemma AtMostOnce(o: Oracle, init: State, steps: seq<Step>, r: CheckRun, q: CheckRun)
    requires Init(init) && Legal(o, init, steps)
    requires var s := Run(init, steps); r in s.remote && q in s.remote && r.id in s.posted && q.id in s.posted
    requires r.externalId == q.externalId
    ensures r == q
  {
    InitInv(o, init);
    RunInv(o, init, steps);
    var s := Run(init, steps);
    PostedRunIsItself(o, s, r);
    PostedRunIsItself(o, s, q);
  }

  /** So a remote that starts empty and that no other app writes to never holds two runs with the
      same external id. */
  lemma NoDuplicates(o: Oracle, init: State, steps: seq<Step>, i: nat, j: nat)
    requires Init(init) && init.remote == [] && Legal(o, init, steps)
    requires forall step :: step in steps ==> !step.ForeignRun?
    requires i < j < |Run(init, steps).remote|
    ensures Run(init, steps).remote[i].externalId != Run(init, steps).remote[j].externalId
  {
    var remote := Run(init, steps).remote;
    AllPosted(o, init, steps);
    InitInv(o, init);
    RunInv(o, init, steps);
    assert remote[i] in remote && remote[j] in remote;
    if remote[i].externalId == remote[j].externalId { AtMostOnce(o, init, steps, remote[i], remote[j]); }
  }

  lemma {:induction false} AllPosted(o: Oracle, init: State, steps: seq<Step>)
    requires Init(init) && init.remote == [] && Legal(o, init, steps)
    requires forall step :: step in steps ==> !step.ForeignRun?
    ensures forall r :: r in Run(init, steps).remote ==> r.id in Run(init, steps).posted
  {
    if steps != [] {
      var before, last := steps[..|steps| - 1], steps[|steps| - 1];
      assert last in steps && forall step :: step in before ==> step in steps;
      AllPosted(o, init, before);
      OnlyPostsLand(o, Run(init, before), last);
    }
  }

  lemma OnlyPostsLand(o: Oracle, s: State, step: Step)
    requires Enabled(o, s, step) && !step.ForeignRun?
    requires forall r :: r in s.remote ==> r.id in s.posted
    ensures forall r :: r in Apply(s, step).remote ==> r.id in Apply(s, step).posted
  {
  }

  /** Every run this publisher created under the name `cdb-local-ci` stands for evidence that was
      accepted for its SHA at the gate; the probe, which checks no evidence, creates none. */
  lemma NamedRunsHaveEvidence(o: Oracle, init: State, steps: seq<Step>, r: CheckRun)
    returns (req: PublishRequest, m: Manifest)
    requires Init(init) && Legal(o, init, steps)
    requires r in Run(init, steps).remote && r.id in Run(init, steps).posted && r.name == "cdb-local-ci"
    ensures r.conclusion == "success" && r.headSha == m.commitSha && Lower(m.commitSha) == Lower(req.args.commitSha)
    ensures req.dir.manifestJson.Some? && o.parse(req.dir.manifestJson.value) == Some(m)
    ensures req.dir.recordedDigest == Some(o.sha256(req.dir.manifestJson.value))
    ensures m.artifactHashes != map[]
    ensures forall rel :: rel in m.artifactHashes ==>
              rel in req.dir.files && o.sha256(req.dir.files[rel]) == m.artifactHashes[rel]
    ensures Fresh(o, m, req.args.freshnessHours, req.now)
    ensures m.dirtyWorktree != Flag(true) && m.mergeEvidence != Flag(false) && m.profile != "slice"
    ensures SaysClean(m) <==> m.dirtyWorktree.Flag? && m.mergeEvidence.Flag?
    ensures m.overallStatus == "PASS"
    ensures forall name :: name in ["lint", "unit", "docs", "governance"] ==> LastPassed(m.stages, name)
    ensures PolicyGatePassed(req) <==> req.args.prNumber > 0
    ensures req.args.statusContext == "cdb-local-ci" ==> req.args.prNumber > 0
    ensures req.live.commitExists && req.live.worktreeClean && req.live.commitStillExists
    ensures req.args.prNumber > 0 ==>
              && req.live.policyPasses
              && Lower(req.live.prHeadAtGate) == Lower(m.commitSha) == Lower(req.live.prHeadAtPublish)
  {
    InitInv(o, init);
    RunInv(o, init, steps);
    var s := Run(init, steps);
    PostedRunIsItself(o, s, r);
    assert CHECK_RUN_NAME != SHADOW_CHECK_RUN_NAME by { assert |CHECK_RUN_NAME| != |SHADOW_CHECK_RUN_NAME|; }
    req, m := s.posted[r.id].purpose.req, s.posted[r.id].purpose.manifest;
    CleanIffKeysBoolean(m);
  }

  /** Whenever a call ended well, on whichever of its success paths, the remote holds the run. */
  lemma OkMeansVerified(o: Oracle, init: State, steps: seq<Step>)
    requires Init(init) && Legal(o, init, steps)
    requires Run(init, steps).proc.Idle? && Run(init, steps).proc.last.Done?
    ensures var d := Run(init, steps).proc.last;
            exists r :: r in Run(init, steps).remote && r.id == d.remoteId && r.status == "completed"
                        && r.appId == Some(d.job.expectedApp) && r.name == d.job.payload.name
                        && Lower(r.headSha) == Lower(d.job.payload.headSha)
                        && r.conclusion == d.job.payload.conclusion && r.externalId == d.job.payload.externalId
  {
    InitInv(o, init);
    RunInv(o, init, steps);
  }

  /** The ledger is sound and unambiguous in every reachable state. */
  lemma LedgerAlwaysSound(o: Oracle, init: State, steps: seq<Step>)
    requires Init(init) && Legal(o, init, steps)
    ensures var s := Run(init, steps); var entries := EntriesOf(s.ledger);
            && (forall e :: e in entries ==>
                  exists r :: r in s.remote && e.checkRunId == Some(r.id) && r.externalId == e.externalId
                              && Lower(r.headSha) == Lower(e.commitSha) && r.name == e.checkRunName)
            && UniqueExternalIds(entries)
            && OneShaPerRunId(entries)
            && (forall x :: FindCheckRunPublication(entries, x).Ok?)
  {
    InitInv(o, init);
    RunInv(o, init, steps);
    var s := Run(init, steps);
    forall e | e in EntriesOf(s.ledger)
      ensures exists r :: r in s.remote && e.checkRunId == Some(r.id) && r.externalId == e.externalId
                          && Lower(r.headSha) == Lower(e.commitSha) && r.name == e.checkRunName
    {
      assert Names(s.remote, e);
    }
    forall x ensures FindCheckRunPublication(EntriesOf(s.ledger), x).Ok? {
      FindIsExact(EntriesOf(s.ledger), x);
    }
  }

  /** Remote and ledger only grow, at the end. */
  lemma {:induction false} HistoryOnlyGrows(o: Oracle, s: State, steps: seq<Step>)
    requires Inv(o, s) && Legal(o, s, steps)
    ensures s.remote <= Run(s, steps).remote
    ensures EntriesOf(s.ledger) <= EntriesOf(Run(s, steps).ledger)
  {
    if steps != [] {
      var before := steps[..|steps| - 1];
      HistoryOnlyGrows(o, s, before);
      RunInv(o, s, before);
      StepGrows(o, Run(s, before), steps[|steps| - 1]);
    }
  }

  lemma StepGrows(o: Oracle, s: State, step: Step)
    requires Inv(o, s) && Enabled(o, s, step)
    ensures s.remote <= Apply(s, step).remote
    ensures EntriesOf(s.ledger) <= EntriesOf(Apply(s, step).ledger)
  {
  }

  /** Once the pre-check has passed, the append is never refused. */
  lemma AppendNeverRefused(o: Oracle, init: State, steps: seq<Step>, at: string)
    requires Init(init) && Legal(o, init, steps + [Append(at)])
    ensures var s := Run(init, steps + [Append(at)]);
            && s.proc.Idle? && s.proc.last.Done? && !s.proc.last.noop
            && (s.proc.last.job.purpose.ForEvidence? ==>
                  && EntriesOf(s.ledger) != []
                  && EntriesOf(s.ledger)[|EntriesOf(s.ledger)| - 1].externalId == s.proc.last.job.payload.externalId
                  && EntriesOf(s.ledger)[|EntriesOf(s.ledger)| - 1].checkRunId == Some(s.proc.last.remoteId))
  {
    assert (steps + [Append(at)])[..|steps|] == steps;
    InitInv(o, init);
    RunInv(o, init, steps);
    AppendInv(o, Run(init, steps), at);
  }

  // ---- The undisturbed publish ----

  lemma OneMore(o: Oracle, s: State, steps: seq<Step>, step: Step) returns (longer: seq<Step>)
    requires Legal(o, s, steps) && Enabled(o, Run(s, steps), step)
    ensures longer == steps + [step] && Legal(o, s, longer) && Run(s, longer) == Apply(Run(s, steps), step)
  {
    longer := steps + [step];
    assert longer[..|steps|] == steps;
  }

  /** The protocol does publish: an admitted request whose external id is new on its SHA, over a
      remote that answers, ends with exactly one new run and one new entry. */
  lemma PublishSucceeds(o: Oracle, s: State, req: PublishRequest, m: Manifest, id: int, at: string)
    returns (steps: seq<Step>)
    requires Inv(o, s) && Enabled(o, s, BeginPublish(req, m)) && at != ""
    requires req.args.tokenApp == req.args.expectedApp && NoColon(m.commitSha) && FreshId(s.remote, id)
    requires forall r :: r in s.remote && OnSha(r, m.commitSha) ==> r.externalId != ExternalId(m.runId, m.commitSha)
    ensures Legal(o, s, steps)
    ensures var (job, t) := (PublishJob(req, m), Run(s, steps));
            && t.proc == Idle(Done(job, id, false, "verified"))
            && t.remote == s.remote + [RunOf(job, id)] && t.posted == s.posted[id := job]
            && t.ledger == Entries(EntriesOf(s.ledger) + [EntryOf(job, id, "verified", at)])
  {
    var job := PublishJob(req, m);
    steps := OneMore(o, s, [], BeginPublish(req, m));
    steps := ListsNothing(o, s, steps, job);
    steps := PostsAndReads(o, s, steps, job, id);
    RunInv(o, s, steps);
    AppendInv(o, Run(s, steps), at);
    steps := OneMore(o, s, steps, Append(at));
  }

  lemma ListsNothing(o: Oracle, s: State, begun: seq<Step>, job: Job) returns (steps: seq<Step>)
    requires Legal(o, s, begun) && Run(s, begun) == s.(proc := ListNamed(job))
    requires forall r :: r in s.remote && OnSha(r, job.payload.headSha) ==> r.externalId != job.payload.externalId
    ensures Legal(o, s, steps) && Run(s, steps) == s.(proc := Posting(job))
  {
    NothingMatches(s, job);
    steps := OneMore(o, s, begun, NamedReply([]));
    steps := OneMore(o, s, steps, AllReply);
  }

  lemma PostsAndReads(o: Oracle, s: State, posting: seq<Step>, job: Job, id: int) returns (steps: seq<Step>)
    requires Legal(o, s, posting) && Run(s, posting) == s.(proc := Posting(job))
    requires FreshId(s.remote, id) && NoColon(job.payload.headSha) && job.tokenApp == job.expectedApp > 0
    ensures Legal(o, s, steps)
    ensures Run(s, steps) == s.(remote := s.remote + [RunOf(job, id)], posted := s.posted[id := job],
                                proc := Appending(job, RunOf(job, id), "verified"))
  {
    steps := OneMore(o, s, posting, PostReply(id));
    steps := OneMore(o, s, steps, ReadbackReply(RunOf(job, id)));
  }

  lemma NothingMatches(s: State, job: Job)
    requires forall r :: r in s.remote && OnSha(r, job.payload.headSha) ==> r.externalId != job.payload.externalId
    ensures Matching(RunsOn(s.remote, job.payload.headSha), job.payload.externalId) == []
  {
    var page := RunsOn(s.remote, job.payload.headSha);
    RunsOnMembers(s.remote, job.payload.headSha);
    MatchingMembers(page, job.payload.externalId);
    EmptyIfNoMembers(Matching(page, job.payload.externalId));
  }

  lemma EmptyIfNoMembers(runs: seq<CheckRun>)
    ensures runs == [] || exists r :: r in runs
  {
    if runs != [] { assert runs[0] in runs; }
  }

  // ---- Retry ----

  predicate Responsive(step: Step) { step.NamedReply? || step.AllReply? }

  lemma {:induction false} MatchingDistinct(page: seq<CheckRun>, x: string)
    requires DistinctIds(page)
    ensures DistinctIds(Matching(page, x))
  {
    if page != [] {
      var rest, last := page[..|page| - 1], page[|page| - 1];
      MatchingDistinct(rest, x);
      MatchingMembers(rest, x);
      forall r | r in Matching(rest, x) ensures r.id != last.id {
        var i :| 0 <= i < |rest| && rest[i] == r;
        assert page[i].id != page[|page| - 1].id;
      }
      forall i | 0 <= i < |Matching(rest, x)| ensures Matching(rest, x)[i].id != last.id {
        assert Matching(rest, x)[i] in Matching(rest, x);
      }
    }
  }

  lemma {:induction false} RunsOnDistinct(remote: seq<CheckRun>, sha: string)
    requires DistinctIds(remote)
    ensures DistinctIds(RunsOn(remote, sha))
  {
    if remote != [] {
      var rest, last := remote[..|remote| - 1], remote[|remote| - 1];
      RunsOnDistinct(rest, sha);
      RunsOnMembers(rest, sha);
      forall r | r in RunsOn(rest, sha) ensures r.id != last.id {
        var i :| 0 <= i < |rest| && rest[i] == r;
        assert remote[i].id != remote[|remote| - 1].id;
      }
      forall i | 0 <= i < |RunsOn(rest, sha)| ensures RunsOn(rest, sha)[i].id != last.id {
        assert RunsOn(rest, sha)[i] in RunsOn(rest, sha);
      }
    }
  }

  /** The landed run of a publish is the only one on its SHA with its external id. */
  ghost predicate LandedFor(s: State, job: Job, id: int) {
    && id in s.posted && s.posted[id].payload == job.payload && s.posted[id].tokenApp == job.expectedApp
    && forall r :: r in s.remote && OnSha(r, job.payload.headSha) && r.externalId == job.payload.externalId ==>
        r.id in s.posted
  }

  lemma AllSameIsSingle(runs: seq<CheckRun>, r: CheckRun)
    requires DistinctIds(runs) && forall q :: q in runs ==> q == r
    ensures |runs| <= 1
  {
    assert |runs| > 1 ==> runs[0].id != runs[1].id;
    forall i | 0 <= i < |runs| ensures runs[i].id == r.id { assert runs[i] in runs; }
  }

  /** Looking through a truthful page settles on the landed run, or finds nothing there. */
  lemma LookFindsLanded(o: Oracle, s: State, job: Job, id: int, page: seq<CheckRun>, none: Proc)
    requires Inv(o, s) && LandedFor(s, job, id) && job.expectedApp > 0
    requires s.proc.ListNamed? || s.proc.ListAll?
    requires DistinctIds(page) && forall r :: r in page ==> r in s.remote && OnSha(r, job.payload.headSha)
    ensures Look(s, job, page, none) ==
            s.(proc := if RunOf(s.posted[id], id) in page then Idle(Done(job, id, true, "verified")) else none)
  {
    var landed := RunOf(s.posted[id], id);
    var matches := Matching(page, job.payload.externalId);
    MatchingMembers(page, job.payload.externalId);
    MatchingDistinct(page, job.payload.externalId);
    forall r | r in matches ensures r == landed {
      PostedRunIsItself(o, s, r);
    }
    AllSameIsSingle(matches, landed);
    if matches != [] { assert matches[0] in matches; }
    assert landed in page <==> landed in matches;
  }

  /** Retry converges: once the POST of a request has landed, whatever failed afterwards, the
      same request over a responsive remote ends after at most two replies, as a verified no-op,
      with remote and ledger as they were; until it is idle, a reply is due. */
  lemma RetryConverges(o: Oracle, s: State, req: PublishRequest, m: Manifest, id: int, replies: seq<Step>)
    requires Inv(o, s) && Enabled(o, s, BeginPublish(req, m))
    requires LandedFor(s, PublishJob(req, m), id)
    requires Legal(o, Apply(s, BeginPublish(req, m)), replies)
    requires forall step :: step in replies ==> Responsive(step)
    ensures |replies| <= 2
    ensures var t := Run(Apply(s, BeginPublish(req, m)), replies);
            && t.remote == s.remote && t.ledger == s.ledger && t.posted == s.posted
            && (|replies| == 2 ==> t.proc.Idle?)
            && (t.proc.Idle? ==> t.proc == Idle(Done(PublishJob(req, m), id, true, "verified")))
            && (!t.proc.Idle? ==> Enabled(o, t, NamedReply([])) || Enabled(o, t, AllReply))
  {
    var job := PublishJob(req, m);
    var begun := Apply(s, BeginPublish(req, m));
    StepInv(o, s, BeginPublish(req, m));
    RetryStates(o, s, begun, job, id, replies);
  }

  lemma {:induction false} RetryStates(o: Oracle, s: State, begun: State, job: Job, id: int, replies: seq<Step>)
    requires Inv(o, s) && job.expectedApp > 0 && LandedFor(s, job, id)
    requires begun == s.(proc := ListNamed(job)) && Inv(o, begun)
    requires Legal(o, begun, replies) && forall step :: step in replies ==> Responsive(step)
    ensures |replies| <= 2
    ensures var t := Run(begun, replies);
            && t == s.(proc := t.proc)
            && (|replies| == 0 ==> t.proc == ListNamed(job))
            && (|replies| == 1 ==> t.proc == ListAll(job) || t.proc == Idle(Done(job, id, true, "verified")))
            && (|replies| == 2 ==> t.proc == Idle(Done(job, id, true, "verified")))
  {
    if replies != [] {
      var before, last := replies[..|replies| - 1], replies[|replies| - 1];
      assert last in replies && forall step :: step in before ==> step in replies;
      RetryStates(o, s, begun, job, id, before);
      RunInv(o, begun, before);
      var t := Run(begun, before);
      assert LandedFor(t, job, id);
      if last.NamedReply? {
        LookFindsLanded(o, t, job, id, last.page, ListAll(job));
      } else {
        var page := RunsOn(t.remote, job.payload.headSha);
        RunsOnDistinct(t.remote, job.payload.headSha);
        RunsOnMembers(t.remote, job.payload.headSha);
        LookFindsLanded(o, t, job, id, page, Posting(job));
        assert RunOf(t.posted[id], id) in t.remote;
      }
    }
  }

  // ---- What a list leads to ----

  lemma {:induction false} MatchesSplit(page: seq<CheckRun>, x: string, r: CheckRun)
    requires DistinctIds(page) && r in page && r.externalId == x
    ensures Matching(page, x) == [r] || exists q :: q in page && q != r && q.externalId == x
    ensures (exists q :: q in page && q != r && q.externalId == x) ==> |Matching(page, x)| > 1
  {
    var matches := Matching(page, x);
    MatchingMembers(page, x);
    MatchingDistinct(page, x);
    assert r in matches;
    if |matches| == 1 {
      assert matches == [r];
    } else {
      assert matches[0].id != matches[1].id && matches[0] in matches && matches[1] in matches;
    }
  }

  /** Where a page of runs leads, run by run: a single one with the job's external id counts if its
      six fields are the expected ones; it ends the call as a no-op before the POST, and leads to the
      append after it. Two such runs, or one that differs, end in failure. */
  lemma LookMeans(s: State, job: Job, page: seq<CheckRun>, none: Proc)
    requires DistinctIds(page)
    ensures var (x, next) := (job.payload.externalId, Look(s, job, page, none));
            && next == s.(proc := next.proc)
            && ((forall r :: r in page ==> r.externalId != x) ==> next.proc == none)
            && forall r :: r in page && r.externalId == x ==>
                 next.proc ==
                   if (exists q :: q in page && q != r && q.externalId == x)
                      || r.appId != Some(job.expectedApp) || job.expectedApp <= 0 || r.name != job.payload.name
                      || Lower(r.headSha) != Lower(job.payload.headSha) || r.status != "completed"
                      || r.conclusion != job.payload.conclusion
                   then Idle(Failed)
                   else if s.proc.ListNamed? || s.proc.ListAll? then Idle(Done(job, r.id, true, "verified"))
                   else Appending(job, r, if s.proc.ReadingBack? then "verified" else "verified_after_timeout")
  {
    var x := job.payload.externalId;
    MatchingMembers(page, x);
    EmptyIfNoMembers(Matching(page, x));
    forall r | r in page && r.externalId == x
      ensures Matching(page, x) != [] && (Matching(page, x) == [r] || |Matching(page, x)| > 1)
      ensures |Matching(page, x)| > 1 <==> exists q :: q in page && q != r && q.externalId == x
    {
      MatchesSplit(page, x, r);
    }
  }

  /** The full list is read on the SHA of the job, whatever its case: nothing is posted unless no run
      there has the external id. */
  lemma FullListMeans(o: Oracle, s: State)
    requires Inv(o, s) && s.proc.ListAll?
    ensures var (job, next) := (s.proc.job, Apply(s, AllReply));
            && (next.proc == Posting(job)
                <==> forall r :: r in s.remote && Lower(r.headSha) == Lower(job.payload.headSha) ==>
                       r.externalId != job.payload.externalId)
            && (next.proc != Posting(job) ==> next.proc.Idle?)
  {
    var job := s.proc.job;
    var page := RunsOn(s.remote, job.payload.headSha);
    RunsOnMembers(s.remote, job.payload.headSha);
    RunsOnDistinct(s.remote, job.payload.headSha);
    LookMeans(s, job, page, Posting(job));
    MatchingMembers(page, job.payload.externalId);
  }

  // ---- What is written ----

  /** The payload of a publish, and the entry that records it, in the fields of request and manifest. */
  lemma WrittenMeans(req: PublishRequest, m: Manifest, id: int, verdict: string, at: string)
    ensures var job := PublishJob(req, m);
            && job.payload.name == (if req.args.checkRunName == "" then "cdb-local-ci" else req.args.checkRunName)
            && job.payload.headSha == m.commitSha && job.payload.conclusion == "success"
            && job.payload.externalId == m.runId + ":" + Lower(m.commitSha)
            && job.expectedApp == req.args.expectedApp && job.tokenApp == req.args.tokenApp
            && var e := EntryOf(job, id, verdict, at);
               && e.runId == m.runId && e.commitSha == m.commitSha == e.headSha
               && e.repository == "jannekbuengener/Claire_de_Binare" && e.statusContext == req.args.statusContext
               && (req.dir.recordedDigest.Some? ==> e.manifestSha256 == req.dir.recordedDigest.value)
               && e.publishedAt == at && e.checkRunId == Some(id) && e.appId == req.args.expectedApp
               && e.checkRunName == job.payload.name && e.externalId == job.payload.externalId
               && e.verification == verdict
  {
  }

  /** What the probe writes, whatever its arguments: the shadow name and an external id of its own. */
  lemma ProbeMeans(sha: string, tokenApp: int, expectedApp: int)
    requires |sha| == 40
    ensures var job := ProbeJob(sha, tokenApp, expectedApp);
            && job.payload == Payload("cdb-local-ci-app-preview", sha, "success",
                                      "app-auth-probe-" + sha[..12] + ":" + Lower(sha))
            && job.tokenApp == tokenApp && job.expectedApp == expectedApp
  {
  }

  // ---- What the protocol does not give ----

  /** Past the listing phase, a job with external id `x` is under way. */
  ghost predicate UnderWay(s: State, x: string) {
    && !s.proc.Idle? && !s.proc.ListNamed? && !s.proc.ListAll?
    && NoColon(s.proc.job.payload.headSha) && s.proc.job.payload.externalId == x
  }

  /** The step records external id `x`: the append at the end of a publish under that id. */
  ghost predicate Records(s: State, step: Step, x: string) {
    step.Append? && s.proc.Appending? && s.proc.job.purpose.ForEvidence? && s.proc.job.payload.externalId == x
  }

  ghost predicate RecordsAt(s: State, steps: seq<Step>, k: nat, x: string)
    requires k < |steps|
  {
    Records(Run(s, steps[..k]), steps[k], x)
  }

  ghost predicate EverRecords(s: State, steps: seq<Step>, x: string) {
    exists k :: 0 <= k < |steps| && RecordsAt(s, steps, k, x)
  }

  /** Over every history an external id gets its ledger entry exactly by such a step. Which call can
      still take it is the subject of ProtocolRecording. */
  lemma {:induction false} RecordedIff(o: Oracle, s: State, steps: seq<Step>, x: string)
    requires Inv(o, s) && Legal(o, s, steps) && NotLedgered(s, x)
    ensures !NotLedgered(Run(s, steps), x) <==> EverRecords(s, steps, x)
  {
    if steps != [] {
      var n := |steps| - 1;
      RecordedIff(o, s, steps[..n], x);
      RunInv(o, s, steps[..n]);
      RecordedStep(o, Run(s, steps[..n]), steps[n], x);
      EverRecordsLater(s, steps, x);
    }
  }

  lemma EverRecordsLater(s: State, steps: seq<Step>, x: string)
    requires steps != []
    ensures var n := |steps| - 1;
            EverRecords(s, steps, x) <==> EverRecords(s, steps[..n], x) || Records(Run(s, steps[..n]), steps[n], x)
  {
    var n := |steps| - 1;
    forall k | 0 <= k < n ensures RecordsAt(s, steps, k, x) <==> RecordsAt(s, steps[..n], k, x) {
      assert steps[..n][..k] == steps[..k];
    }
    assert RecordsAt(s, steps, n, x) <==> Records(Run(s, steps[..n]), steps[n], x);
    if EverRecords(s, steps[..n], x) {
      var k :| 0 <= k < n && RecordsAt(s, steps[..n], k, x);
      assert RecordsAt(s, steps, k, x);
    }
  }

  lemma RecordedStep(o: Oracle, s: State, step: Step, x: string)
    requires Inv(o, s) && Enabled(o, s, step)
    ensures NotLedgered(Apply(s, step), x) <==> NotLedgered(s, x) && !Records(s, step, x)
  {
    if step.Append? {
      AppendInv(o, s, step.at);
      RecordedAppend(s, step.at, x);
    }
  }

  lemma RecordedAppend(s: State, at: string, x: string)
    requires s.proc.Appending? && ApplyAppend(s, at).proc.Idle? && ApplyAppend(s, at).proc.last.Done?
    requires s.ledger != Corrupt
    ensures NotLedgered(ApplyAppend(s, at), x) <==> NotLedgered(s, x) && !Records(s, Append(at), x)
  {
    if s.proc.job.purpose.ForEvidence? {
      var (e, entries) := (EntryOf(s.proc.job, s.proc.run.id, s.proc.verdict, at), EntriesOf(s.ledger));
      assert EntriesOf(ApplyAppend(s, at).ledger) == entries + [e];
      assert forall d :: d in entries + [e] <==> d in entries || d == e;
    }
  }

  /** A run that landed but was not recorded by its own call is never recorded: every later call
      finds it and skips the append. A crash between POST and append is permanent. */
  lemma {:induction false} UnrecordedForever(o: Oracle, s: State, steps: seq<Step>, id: int)
    requires Inv(o, s) && Legal(o, s, steps) && id in s.posted
    requires NotLedgered(s, s.posted[id].payload.externalId) && !UnderWay(s, s.posted[id].payload.externalId)
    ensures NotLedgered(Run(s, steps), s.posted[id].payload.externalId)
    ensures !UnderWay(Run(s, steps), s.posted[id].payload.externalId)
    ensures id in Run(s, steps).posted && Run(s, steps).posted[id] == s.posted[id]
  {
    if steps != [] {
      var before, last := steps[..|steps| - 1], steps[|steps| - 1];
      UnrecordedForever(o, s, before, id);
      RunInv(o, s, before);
      UnrecordedStep(o, Run(s, before), last, id);
    }
  }

  lemma UnrecordedStep(o: Oracle, s: State, step: Step, id: int)
    requires Inv(o, s) && Enabled(o, s, step) && id in s.posted
    requires NotLedgered(s, s.posted[id].payload.externalId) && !UnderWay(s, s.posted[id].payload.externalId)
    ensures id in Apply(s, step).posted && Apply(s, step).posted[id] == s.posted[id]
    ensures NotLedgered(Apply(s, step), s.posted[id].payload.externalId)
    ensures !UnderWay(Apply(s, step), s.posted[id].payload.externalId)
  {
    match step
    case AllReply => UnrecordedAllReply(o, s, id);
    case Append(at) => UnrecordedAppend(o, s, at, id);
    case _ => assert RunOf(s.posted[id], id) in s.remote;
  }

  lemma UnrecordedAppend(o: Oracle, s: State, at: string, id: int)
    requires Inv(o, s) && Enabled(o, s, Append(at)) && id in s.posted
    requires NotLedgered(s, s.posted[id].payload.externalId) && !UnderWay(s, s.posted[id].payload.externalId)
    ensures Apply(s, Append(at)).posted == s.posted && Apply(s, Append(at)).proc.Idle?
    ensures NotLedgered(Apply(s, Append(at)), s.posted[id].payload.externalId)
  {
    SameShaNoColon(s.proc.run.headSha, s.proc.job.payload.headSha);
  }

  lemma UnrecordedAllReply(o: Oracle, s: State, id: int)
    requires Inv(o, s) && Enabled(o, s, AllReply) && id in s.posted
    requires NotLedgered(s, s.posted[id].payload.externalId) && !UnderWay(s, s.posted[id].payload.externalId)
    ensures Apply(s, AllReply).posted == s.posted
    ensures NotLedgered(Apply(s, AllReply), s.posted[id].payload.externalId)
    ensures !UnderWay(Apply(s, AllReply), s.posted[id].payload.externalId)
  {
    var job := s.proc.job;
    if Matching(RunsOn(s.remote, job.payload.headSha), job.payload.externalId) == [] && NoColon(job.payload.headSha) {
      CompleteListClears(o, s, job);
    }
  }

  /** The entry a sound publish appends loads again exactly under these conditions. */
  lemma EntryLoadable(o: Oracle, job: Job, remoteId: int, verdict: string, at: string)
    requires SoundJob(o, job) && job.purpose.ForEvidence? && PayloadBuilds(job.purpose.manifest) && at != ""
    ensures var e := EntryOf(job, remoteId, verdict, at);
            Loadable(e) <==> e.statusContext != "" && e.manifestSha256 != "" && TokenFree(e)
  {
    assert REPOSITORY != "" by { assert REPOSITORY[0] == 'j'; }
  }

  /** Once the file no longer loads (say, after a publish with an empty status context), no
      publish is ever admitted again and the file never changes. */
  lemma {:induction false} UnloadableForever(o: Oracle, s: State, steps: seq<Step>)
    requires Inv(o, s) && LoadLedger(s.ledger).Err? && Legal(o, s, steps)
    ensures Run(s, steps).ledger == s.ledger
    ensures forall step :: step in steps ==> !step.BeginPublish?
  {
    if steps != [] {
      var before, last := steps[..|steps| - 1], steps[|steps| - 1];
      UnloadableForever(o, s, before);
      RunInv(o, s, before);
      UnloadableStep(o, Run(s, before), last);
      assert forall step :: step in steps <==> step in before || step == last;
    }
  }

  lemma UnloadableStep(o: Oracle, s: State, step: Step)
    requires Inv(o, s) && LoadLedger(s.ledger).Err? && Enabled(o, s, step)
    ensures !step.BeginPublish? && Apply(s, step).ledger == s.ledger
  {
  }
}

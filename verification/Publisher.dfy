/** The publisher's code over the protocol: `CheckRunBackend.publish` (ci/publisher/backends.py),
    `cmd_publish` and `cmd_app_auth_probe` (ci/publisher/cli.py), step by step. Each request is a
    transition of the protocol, so the theorems about legal histories hold of what these
    methods do to the remote and to the ledger file. */
module Publisher {
  import opened Wrappers
  import opened Text
  import opened Evidence
  import opened Ledger
  import opened PublishGate
  import opened Protocol
  import opened ProtocolInvariants

  datatype PostResult = Replied(id: int) | TimedOut | Errored

  /** The remote as the publisher reaches it, and the ledger file next to it. The contract of a
      request is all its caller knows: the remote may fail, answer in part, or have grown. */
  class Session {
    ghost const o: Oracle
    ghost const init: State
    ghost var trace: seq<Step>
    var runs: seq<CheckRun>
    const file: LedgerFile

    ghost function Now(): State reads this { Run(init, trace) }

    ghost predicate Valid() reads this, file {
      Init(init) && Legal(o, init, trace) && Now().remote == runs && Now().ledger == file.content
    }

    constructor (ghost o: Oracle, runs: seq<CheckRun>)
      requires DistinctIds(runs) && forall r :: r in runs ==> r.id > 0 && NoColon(r.headSha)
      ensures Valid() && Now().proc == Idle(Nothing) && this.runs == runs && fresh(file) && file.content == Absent
    {
      this.o := o;
      this.runs := runs;
      this.init := State(runs, Absent, Idle(Nothing), map[]);
      this.trace := [];
      this.file := new LedgerFile();
    }

    lemma Sound()
      requires Valid()
      ensures Inv(o, Now())
    {
      InitInv(o, init);
      RunInv(o, init, trace);
    }

    /** What a finished or nearly finished call rests on. */
    lemma HoldsRun()
      requires Valid()
      ensures Now().proc.Appending? ==> Now().proc.run in runs && Verifies(Now().proc.run, Now().proc.job)
      ensures Now().proc.Idle? && Now().proc.last.Done? ==>
                exists r :: r in runs && r.id == Now().proc.last.remoteId && Verifies(r, Now().proc.last.job)
    {
      Sound();
    }

    /** One transition of the protocol, with the remote it leads to. */
    method Take(ghost step: Step, newRuns: seq<CheckRun>)
      requires Valid() && Enabled(o, Now(), step)
      requires Apply(Now(), step).remote == newRuns && Apply(Now(), step).ledger == file.content
      modifies this
      ensures Valid() && trace == old(trace) + [step] && runs == newRuns && Now() == Apply(old(Now()), step)
    {
      assert (trace + [step])[..|trace|] == trace;
      trace := trace + [step];
      runs := newRuns;
    }

    /** Other apps add any number of runs. */
    method Arrivals()
      requires Valid()
      modifies this
      ensures Valid() && old(trace) <= trace && old(runs) <= runs && Now().proc == old(Now().proc)
      ensures file.content == old(file.content)
    {
      var n: nat := *;
      while n > 0
        invariant Valid() && old(trace) <= trace && old(runs) <= runs && Now().proc == old(Now().proc)
        invariant file.content == old(file.content)
        decreases n
      {
        var run: CheckRun := *;
        if FreshId(runs, run.id) && NoColon(run.headSha) {
          Take(ForeignRun(run), runs + [run]);
        }
        n := n - 1;
      }
    }

    /** The query with a name filter answers with any part of the runs of that name, or fails. */
    method RequestNamed(ghost job: Job, sha: string, name: string) returns (page: Option<seq<CheckRun>>)
      requires Valid() && (Now().proc == ListNamed(job) || Now().proc == RecoverNamed(job))
      requires sha == job.payload.headSha && name == job.payload.name
      modifies this
      ensures Valid() && old(trace) <= trace && old(runs) <= runs && file.content == old(file.content)
      ensures page.None? ==> Now().proc == Idle(Failed)
      ensures page.Some? ==> Now().proc == LookProc(old(Now().proc), job, page.value,
                                                    if old(Now().proc).ListNamed?
                                                    then ListAll(job) else RecoverAll(job))
    {
      Arrivals();
      var answer: seq<CheckRun> := *;
      var responds: bool := *;
      if responds && DistinctIds(answer) && forall r :: r in answer ==> r in runs && OnSha(r, sha) && r.name == name {
        Take(NamedReply(answer), runs);
        page := Some(answer);
      } else {
        Take(RequestFails, runs);
        page := None;
      }
    }

    /** The query without a filter answers with every run on the SHA, or fails. */
    method RequestAll(ghost job: Job, sha: string) returns (page: Option<seq<CheckRun>>)
      requires Valid() && (Now().proc == ListAll(job) || Now().proc == RecoverAll(job))
      requires sha == job.payload.headSha
      modifies this
      ensures Valid() && old(trace) <= trace && old(runs) <= runs && file.content == old(file.content)
      ensures page.None? ==> Now().proc == Idle(Failed)
      ensures page.Some? ==> Now().proc == LookProc(old(Now().proc), job, page.value,
                                                    if old(Now().proc).ListAll? then Posting(job) else Idle(Failed))
    {
      Arrivals();
      var responds: bool := *;
      if responds {
        page := Some(RunsOn(runs, sha));
        Take(AllReply, runs);
      } else {
        Take(RequestFails, runs);
        page := None;
      }
    }

    /** A POST is answered, times out or fails; in each case but the first it may have landed. */
    method RequestPost(job: Job) returns (r: PostResult)
      requires Valid() && Now().proc == Posting(job)
      modifies this
      ensures Valid() && old(trace) <= trace && old(runs) <= runs && file.content == old(file.content)
      ensures match r
              case Replied(id) => Now().proc == ReadingBack(job, id)
              case TimedOut => Now().proc == RecoverNamed(job)
              case Errored => Now().proc == Idle(Failed)
    {
      Arrivals();
      var id: int := *;
      var lands: bool := *;
      r := *;
      lands := lands && FreshId(runs, id) && NoColon(job.payload.headSha);
      var after := if lands then runs + [RunOf(job, id)] else runs;
      match r {
        case Replied(_) =>
          if lands {
            r := Replied(id);
            Take(PostReply(id), after);
          } else {
            r := Errored;
            Take(PostFails(None), after);
          }
        case TimedOut => Take(PostTimesOut(if lands then Some(id) else None), after);
        case Errored => Take(PostFails(if lands then Some(id) else None), after);
      }
    }

    method RequestRun(ghost job: Job, id: int) returns (found: Option<CheckRun>)
      requires Valid() && Now().proc == ReadingBack(job, id)
      modifies this
      ensures Valid() && old(trace) <= trace && old(runs) <= runs && file.content == old(file.content)
      ensures found.None? ==> Now().proc == Idle(Failed)
      ensures found.Some? ==> Now().proc == SettleProc(old(Now().proc), job, found.value)
    {
      Arrivals();
      var run: CheckRun := *;
      var responds: bool := *;
      if responds && run in runs && run.id == id {
        Take(ReadbackReply(run), runs);
        found := Some(run);
      } else {
        Take(RequestFails, runs);
        found := None;
      }
    }

    /** The ledger append of a publish. */
    method AppendToLedger(e: Entry, at: string) returns (r: Result<()>)
      requires Valid() && at != "" && Now().proc.Appending? && Now().proc.job.purpose.ForEvidence?
      requires e == EntryOf(Now().proc.job, Now().proc.run.id, Now().proc.verdict, at)
      modifies this, file
      ensures Valid() && trace == old(trace) + [Append(at)] && runs == old(runs)
      ensures Now() == ApplyAppend(old(Now()), at)
      ensures r.Ok?
      ensures Now().proc == Idle(Done(old(Now().proc).job, old(Now().proc).run.id, false, old(Now().proc).verdict))
      ensures file.content == Entries(LoadLedger(old(file.content)).value + [e])
    {
      Sound();
      AppendEffect(o, Now(), at);
      assert (trace + [Append(at)])[..|trace|] == trace;
      r := file.AppendEntry(e);
      trace := trace + [Append(at)];
    }

    /** The end of a probe, which writes no ledger. */
    method CloseProbe(ghost at: string)
      requires Valid() && at != "" && Now().proc.Appending? && Now().proc.job.purpose.ForProbe?
      modifies this
      ensures Valid() && trace == old(trace) + [Append(at)] && runs == old(runs) && file.content == old(file.content)
      ensures Now().proc == Idle(Done(old(Now().proc).job, old(Now().proc).run.id, false, old(Now().proc).verdict))
    {
      Take(Append(at), runs);
    }
  }

  datatype WriteCall = WriteCall(payload: Payload, dryRun: bool, expectedApp: int)

  datatype PublishResult = PublishResult(remoteId: Option<int>, dryRun: bool, noop: bool, verification: string)

  class CheckRunBackend {
    const expectedApp: int
    var writeCalls: seq<WriteCall>

    constructor (expectedApp: int)
      requires expectedApp > 0
      ensures this.expectedApp == expectedApp && writeCalls == []
    {
      this.expectedApp := expectedApp;
      writeCalls := [];
    }

    /** `_assert_no_external_id_conflict` */
    predicate Conflicts(existing: CheckRun, payload: Payload) {
      || (existing.headSha != "" && Lower(existing.headSha) != Lower(payload.headSha))
      || (existing.conclusion != "" && existing.conclusion != payload.conclusion)
    }

    /** `verify_remote_check_run`, check by check. */
    method VerifyRemote(r: CheckRun, job: Job) returns (ok: bool)
      requires job.expectedApp == expectedApp
      ensures ok <==> Verifies(r, job)
      ensures Conflicts(r, job.payload) ==> !ok
    {
      if r.appId.None? || r.appId.value <= 0 { return false; }
      if r.appId.value != expectedApp { return false; }
      if r.name != job.payload.name { return false; }
      if Lower(r.headSha) != Lower(job.payload.headSha) { return false; }
      if r.status != "completed" { return false; }
      if r.conclusion != job.payload.conclusion { return false; }
      ok := r.externalId == job.payload.externalId;
    }

    /** A run found by its external id: conflict check and verification. */
    method Confirm(existing: CheckRun, job: Job) returns (r: Result<()>)
      requires job.expectedApp == expectedApp
      ensures r.Ok? <==> Verifies(existing, job)
    {
      var ok := VerifyRemote(existing, job);
      if Conflicts(existing, job.payload) { return Err("external_id already bound"); }
      r := if ok then Ok(()) else Err("remote check run differs");
    }

    /** `find_by_external_id`: the named query, then the broader one when it shows no match. */
    method FindByExternalId(s: Session, job: Job) returns (r: Result<Option<CheckRun>>)
      requires s.Valid() && (s.Now().proc == ListNamed(job) || s.Now().proc == RecoverNamed(job))
      modifies s
      ensures s.Valid() && old(s.trace) <= s.trace && old(s.runs) <= s.runs && s.file.content == old(s.file.content)
      ensures r.Err? ==> s.Now().proc == Idle(Failed)
      ensures r == Ok(None) ==> s.Now().proc == if old(s.Now().proc).ListNamed? then Posting(job) else Idle(Failed)
      ensures r.Ok? && r.value.Some? ==> s.Now().proc == SettleProc(old(s.Now().proc), job, r.value.value)
    {
      var page := s.RequestNamed(job, job.payload.headSha, job.payload.name);
      if page.None? { return Err("list failed"); }
      var matches := Matching(page.value, job.payload.externalId);
      if matches == [] {
        page := s.RequestAll(job, job.payload.headSha);
        if page.None? { return Err("list failed"); }
        matches := Matching(page.value, job.payload.externalId);
      }
      if matches == [] { return Ok(None); }
      if |matches| > 1 { return Err("Ambiguous Check Run external_id"); }
      r := Ok(Some(matches[0]));
    }

    /** After a timeout the write counts only if it can be read back. */
    method Recover(s: Session, job: Job) returns (r: Result<PublishResult>)
      requires s.Valid() && s.Now().proc == RecoverNamed(job) && job.expectedApp == expectedApp
      modifies s
      ensures s.Valid() && old(s.trace) <= s.trace && old(s.runs) <= s.runs && s.file.content == old(s.file.content)
      ensures r.Err? ==> s.Now().proc == Idle(Failed)
      ensures r.Ok? ==>
                && r.value.remoteId.Some? && !r.value.dryRun && !r.value.noop
                && (exists run :: run in s.runs && Some(run.id) == r.value.remoteId && Verifies(run, job))
                && s.Now().proc.Appending? && s.Now().proc.job == job
                && s.Now().proc.run.id == r.value.remoteId.value && s.Now().proc.verdict == r.value.verification
    {
      var recovered := FindByExternalId(s, job);
      if recovered.Err? { return Err(recovered.error); }
      if recovered.value.None? { return Err("timed out and remote readback found nothing"); }
      var confirmed := Confirm(recovered.value.value, job);
      if confirmed.Err? { return Err(confirmed.error); }
      s.HoldsRun();
      r := Ok(PublishResult(Some(recovered.value.value.id), false, false, "verified_after_timeout"));
    }

    /** The POST and what follows it: readback and verification, or recovery after a timeout. */
    method Create(s: Session, job: Job) returns (r: Result<PublishResult>)
      requires s.Valid() && s.Now().proc == Posting(job) && job.expectedApp == expectedApp
      modifies s
      ensures s.Valid() && old(s.trace) <= s.trace && old(s.runs) <= s.runs && s.file.content == old(s.file.content)
      ensures r.Err? ==> s.Now().proc == Idle(Failed)
      ensures r.Ok? ==>
                && r.value.remoteId.Some? && !r.value.dryRun && !r.value.noop
                && (exists run :: run in s.runs && Some(run.id) == r.value.remoteId && Verifies(run, job))
                && s.Now().proc.Appending? && s.Now().proc.job == job
                && s.Now().proc.run.id == r.value.remoteId.value && s.Now().proc.verdict == r.value.verification
    {
      var response := s.RequestPost(job);
      match response {
        case Errored => return Err("create failed");
        case TimedOut => r := Recover(s, job);
        case Replied(id) =>
          var remote := s.RequestRun(job, id);
          if remote.None? { return Err("readback failed"); }
          var ok := VerifyRemote(remote.value, job);
          if !ok { return Err("remote check run differs"); }
          s.HoldsRun();
          r := Ok(PublishResult(Some(remote.value.id), false, false, "verified"));
      }
    }

    method Publish(s: Session, job: Job, dryRun: bool) returns (r: Result<PublishResult>)
      requires s.Valid() && (!dryRun ==> s.Now().proc == ListNamed(job)) && job.expectedApp == expectedApp
      modifies this`writeCalls, s
      ensures writeCalls == old(writeCalls) + [WriteCall(job.payload, dryRun, expectedApp)]
      ensures s.Valid() && old(s.trace) <= s.trace && old(s.runs) <= s.runs && s.file.content == old(s.file.content)
      ensures dryRun ==> s.trace == old(s.trace) && r == Ok(PublishResult(None, true, false, "dry_run"))
      ensures !dryRun && r.Err? ==> s.Now().proc == Idle(Failed)
      ensures !dryRun && r.Ok? ==>
                && r.value.remoteId.Some? && !r.value.dryRun
                && (exists run :: run in s.runs && Some(run.id) == r.value.remoteId && Verifies(run, job))
                && if r.value.noop then s.Now().proc == Idle(Done(job, r.value.remoteId.value, true, "verified"))
                   else s.Now().proc.Appending? && s.Now().proc.job == job
                        && s.Now().proc.run.id == r.value.remoteId.value && s.Now().proc.verdict == r.value.verification
    {
      writeCalls := writeCalls + [WriteCall(job.payload, dryRun, expectedApp)];
      if dryRun { return Ok(PublishResult(None, true, false, "dry_run")); }
      var existing := FindByExternalId(s, job);
      if existing.Err? { return Err(existing.error); }
      if existing.value.Some? {
        var confirmed := Confirm(existing.value.value, job);
        if confirmed.Err? { return Err(confirmed.error); }
        s.HoldsRun();
        return Ok(PublishResult(Some(existing.value.value.id), false, true, "verified"));
      }
      r := Create(s, job);
    }
  }

  const SUCCESS_EXIT := 0
  const FAILURE_EXIT := 1
  const USAGE_EXIT := 2

  /** `cmd_publish` with the check-run backend: gates, remote write, ledger append. `o` is what
      the session calls its oracle; `at` is the clock at the append. */
  method CmdPublish(s: Session, o: Oracle, req: PublishRequest, at: string) returns (exit: int)
    requires s.Valid() && s.Now().proc.Idle? && s.o == o && at != ""
    modifies s, s.file
    ensures s.Valid() && s.Now().proc.Idle? && old(s.trace) <= s.trace && old(s.runs) <= s.runs
    ensures exit == SUCCESS_EXIT || exit == FAILURE_EXIT
    ensures (forall m :: !Admitted(o, req, m, old(s.file.content))) ==>
              exit == FAILURE_EXIT && s.trace == old(s.trace) && s.runs == old(s.runs)
                  && s.file.content == old(s.file.content)
    ensures exit == FAILURE_EXIT ==> s.file.content == old(s.file.content)
    ensures exit == FAILURE_EXIT && (exists m :: Admitted(o, req, m, old(s.file.content))) ==>
              && |old(s.trace)| < |s.trace| && s.trace[|old(s.trace)|].BeginPublish?
              && s.Now().proc == Idle(Failed)
    ensures exit == SUCCESS_EXIT ==>
              exists m, run ::
                && Admitted(o, req, m, old(s.file.content)) && run in s.runs && Verifies(run, PublishJob(req, m))
                && s.Now().proc.last.Done? && s.Now().proc.last.job == PublishJob(req, m)
                    && s.Now().proc.last.remoteId == run.id
                && if s.Now().proc.last.noop then s.file.content == old(s.file.content)
                   else s.file.content == Entries(LoadLedger(old(s.file.content)).value
                                                  + [EntryOf(PublishJob(req, m), run.id,
                                                             s.Now().proc.last.verdict, at)])
  {
    var passed := PassGates(o, req, s.file.content);
    if passed.None? { return FAILURE_EXIT; }
    var m := passed.value;
    var job := PublishJob(req, m);
    s.Take(BeginPublish(req, m), s.runs);
    var backend := new CheckRunBackend(req.args.expectedApp);
    var result := backend.Publish(s, job, false);
    if result.Err? { return FAILURE_EXIT; }
    if !result.value.noop {
      var e := EntryOf(job, result.value.remoteId.value, result.value.verification, at);
      var appended := s.AppendToLedger(e, at);
    }
    exit := SUCCESS_EXIT;
  }

  datatype ProbeArgs = ProbeArgs(
    commitSha: string, checkName: string, repository: string, tokenApp: int, expectedApp: int, dryRun: bool)

  /** An empty name or repository stands for the default. */
  predicate ProbeAllowed(args: ProbeArgs) {
    && (args.checkName == "" || args.checkName == SHADOW_CHECK_RUN_NAME)
    && (args.repository == "" || args.repository == REPOSITORY)
  }

  /** `cmd_app_auth_probe`: only the shadow name, only this repository, no evidence, no ledger. */
  method CmdAppAuthProbe(s: Session, args: ProbeArgs, ghost at: string) returns (exit: int)
    requires s.Valid() && s.Now().proc.Idle? && at != ""
    modifies s
    ensures s.Valid() && s.Now().proc.Idle? && old(s.trace) <= s.trace && old(s.runs) <= s.runs
    ensures s.file.content == old(s.file.content)
    ensures |args.commitSha| != 40 || !ProbeAllowed(args) || args.expectedApp <= 0 || args.dryRun ==>
              s.trace == old(s.trace) && s.runs == old(s.runs)
    ensures exit == USAGE_EXIT <==> |args.commitSha| != 40
    ensures exit == SUCCESS_EXIT ==>
              && (args.checkName == "" || args.checkName == "cdb-local-ci-app-preview")
              && (args.repository == "" || args.repository == "jannekbuengener/Claire_de_Binare")
              && args.expectedApp > 0
    ensures |args.commitSha| == 40 && ProbeAllowed(args) && args.expectedApp > 0 && exit != SUCCESS_EXIT ==>
              && !args.dryRun && exit == FAILURE_EXIT && s.Now().proc == Idle(Failed)
              && |old(s.trace)| < |s.trace| && s.trace[|old(s.trace)|].BeginProbe?
    ensures exit == SUCCESS_EXIT && !args.dryRun ==>
              exists run :: run in s.runs
                            && Verifies(run, ProbeJob(Lower(args.commitSha), args.tokenApp, args.expectedApp))
  {
    var sha := Lower(args.commitSha);
    if |sha| != 40 { return USAGE_EXIT; }
    var checkName := if args.checkName != "" then args.checkName else SHADOW_CHECK_RUN_NAME;
    if checkName != SHADOW_CHECK_RUN_NAME { return FAILURE_EXIT; }
    var repository := if args.repository != "" then args.repository else REPOSITORY;
    if repository != REPOSITORY { return FAILURE_EXIT; }
    if args.expectedApp <= 0 { return FAILURE_EXIT; }
    var job := ProbeJob(sha, args.tokenApp, args.expectedApp);
    var backend := new CheckRunBackend(args.expectedApp);
    if args.dryRun {
      var shown := backend.Publish(s, job, true);
      return SUCCESS_EXIT;
    }
    LowerTwice(args.commitSha);
    s.Take(BeginProbe(sha, args.tokenApp, args.expectedApp), s.runs);
    var result := backend.Publish(s, job, false);
    if result.Err? { return FAILURE_EXIT; }
    if !result.value.noop { s.CloseProbe(at); }
    exit := SUCCESS_EXIT;
  }
}

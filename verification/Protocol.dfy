/** The publication protocol as a transition system: a remote that holds check runs, the
    ledger, and one publisher process working through `cmd_publish` or `app-auth-probe`.

    Assumptions on the remote, all visible in `Enabled`:
    - it never deletes or edits a run; new runs get fresh positive ids;
    - the list without a name filter answers with every run on the SHA, the named query
      (`filter=latest`) with any part of the runs of that name;
    - a POST takes effect before the next request of the publisher, or never;
    - it accepts a check run only for a commit it knows, and commit names contain no colon;
    - one publisher at a time, but other apps may add runs at any moment. */
module Protocol {
  import opened Wrappers
  import opened Text
  import opened Evidence
  import opened Ledger
  import opened PublishGate

  datatype CheckRun = CheckRun(
    id: int, appId: Option<int>, name: string, headSha: string, status: string,
    conclusion: string, externalId: string)

  datatype Purpose = ForEvidence(req: PublishRequest, manifest: Manifest) | ForProbe(sha: string)

  datatype Job = Job(purpose: Purpose, payload: Payload, tokenApp: int, expectedApp: int)

  datatype Outcome = Nothing | Failed | Done(job: Job, remoteId: int, noop: bool, verdict: string)

  /** Where the publisher stands: the request it waits for, or idle with its last outcome. */
  datatype Proc =
    | Idle(last: Outcome)
    | ListNamed(job: Job)
    | ListAll(job: Job)
    | Posting(job: Job)
    | ReadingBack(job: Job, id: int)
    | RecoverNamed(job: Job)
    | RecoverAll(job: Job)
    | Appending(job: Job, run: CheckRun, verdict: string)

  /** `posted` is bookkeeping: which job created which run. */
  datatype State = State(remote: seq<CheckRun>, ledger: Content, proc: Proc, posted: map<int, Job>)

  datatype Step =
    | BeginPublish(req: PublishRequest, manifest: Manifest)
    | BeginProbe(sha: string, tokenApp: int, expectedApp: int)
    | NamedReply(page: seq<CheckRun>)
    | AllReply
    | RequestFails
    | PostReply(id: int)
    | PostTimesOut(landed: Option<int>)
    | PostFails(landed: Option<int>)
    | ReadbackReply(run: CheckRun)
    | Append(at: string)
    | Crash
    | ForeignRun(run: CheckRun)

  // ---- Remote queries ----

  predicate OnSha(r: CheckRun, sha: string) { Lower(r.headSha) == Lower(sha) }

  function RunsOn(remote: seq<CheckRun>, sha: string): seq<CheckRun> {
    if remote == [] then []
    else RunsOn(remote[..|remote| - 1], sha) + (if OnSha(remote[|remote| - 1], sha) then [remote[|remote| - 1]] else [])
  }

  function Matching(page: seq<CheckRun>, externalId: string): seq<CheckRun> {
    if page == [] then []
    else
      var last := page[|page| - 1];
      Matching(page[..|page| - 1], externalId) + if last.externalId == externalId then [last] else []
  }

  /** `verify_remote_check_run` raises nothing. */
  predicate Verifies(r: CheckRun, job: Job) {
    && r.appId == Some(job.expectedApp) && job.expectedApp > 0
    && r.name == job.payload.name
    && OnSha(r, job.payload.headSha)
    && r.status == "completed"
    && r.conclusion == job.payload.conclusion
    && r.externalId == job.payload.externalId
  }

  function RunOf(job: Job, id: int): CheckRun {
    CheckRun(id, Some(job.tokenApp), job.payload.name, job.payload.headSha, "completed",
             job.payload.conclusion, job.payload.externalId)
  }

  // ---- Jobs and entries ----

  function ProbeRunId(sha: string): string {
    "app-auth-probe-" + if |sha| >= 12 then sha[..12] else sha
  }

  function RunIdOf(job: Job): string {
    match job.purpose
    case ForEvidence(_, m) => m.runId
    case ForProbe(sha) => ProbeRunId(sha)
  }

  function PublishJob(req: PublishRequest, m: Manifest): Job {
    Job(ForEvidence(req, m), PayloadFor(req, m), req.args.tokenApp, req.args.expectedApp)
  }

  function ProbeJob(sha: string, tokenApp: int, expectedApp: int): Job {
    var payload := Payload(SHADOW_CHECK_RUN_NAME, sha, "success", ExternalId(ProbeRunId(sha), sha));
    Job(ForProbe(sha), payload, tokenApp, expectedApp)
  }

  function EntryOf(job: Job, remoteId: int, verdict: string, at: string): Entry
    requires job.purpose.ForEvidence?
  {
    var m := job.purpose.manifest;
    var dir := job.purpose.req.dir;
    Entry(m.runId, m.commitSha, REPOSITORY, job.purpose.req.args.statusContext,
          if dir.recordedDigest.Some? then dir.recordedDigest.value else "", at, Some(remoteId),
          job.expectedApp, job.payload.name, job.payload.headSha, job.payload.externalId, verdict)
  }

  function EntriesOf(c: Content): seq<Entry> {
    if c.Entries? then c.entries else []
  }

  // ---- Transitions ----

  predicate FreshId(remote: seq<CheckRun>, id: int) {
    id > 0 && forall r :: r in remote ==> r.id != id
  }

  predicate MayLand(s: State, job: Job, landed: Option<int>) {
    landed.Some? ==> FreshId(s.remote, landed.value) && NoColon(job.payload.headSha)
  }

  ghost predicate Enabled(o: Oracle, s: State, step: Step) {
    match step
    case BeginPublish(req, m) => s.proc.Idle? && Admitted(o, req, m, s.ledger)
    case BeginProbe(sha, _, expectedApp) => s.proc.Idle? && |sha| == 40 && Lower(sha) == sha && expectedApp > 0
    case NamedReply(page) =>
      && (s.proc.ListNamed? || s.proc.RecoverNamed?) && DistinctIds(page)
      && forall r :: r in page ==>
           r in s.remote && OnSha(r, s.proc.job.payload.headSha) && r.name == s.proc.job.payload.name
    case AllReply => s.proc.ListAll? || s.proc.RecoverAll?
    case RequestFails => !s.proc.Idle? && !s.proc.Posting? && !s.proc.Appending?
    case PostReply(id) => s.proc.Posting? && MayLand(s, s.proc.job, Some(id))
    case PostTimesOut(landed) => s.proc.Posting? && MayLand(s, s.proc.job, landed)
    case PostFails(landed) => s.proc.Posting? && MayLand(s, s.proc.job, landed)
    case ReadbackReply(run) => s.proc.ReadingBack? && run in s.remote && run.id == s.proc.id
    case Append(at) => s.proc.Appending? && at != ""
    case Crash => true
    case ForeignRun(run) => FreshId(s.remote, run.id) && NoColon(run.headSha)
  }

  /** A run was found by its external id: conflict check, then verification. */
  function SettleProc(proc: Proc, job: Job, r: CheckRun): Proc {
    if !Verifies(r, job) then Idle(Failed)
    else if proc.ListNamed? || proc.ListAll? then Idle(Done(job, r.id, true, "verified"))
    else Appending(job, r, if proc.ReadingBack? then "verified" else "verified_after_timeout")
  }

  /** `find_by_external_id` got `page`; `none` is where it goes on when nothing matches. */
  function LookProc(proc: Proc, job: Job, page: seq<CheckRun>, none: Proc): Proc {
    var matches := Matching(page, job.payload.externalId);
    if matches == [] then none
    else if |matches| > 1 then Idle(Failed)
    else SettleProc(proc, job, matches[0])
  }

  function Settle(s: State, job: Job, r: CheckRun): State { s.(proc := SettleProc(s.proc, job, r)) }

  function Look(s: State, job: Job, page: seq<CheckRun>, none: Proc): State {
    s.(proc := LookProc(s.proc, job, page, none))
  }

  function Land(s: State, job: Job, landed: Option<int>): State {
    if landed.None? then s
    else s.(remote := s.remote + [RunOf(job, landed.value)], posted := s.posted[landed.value := job])
  }

  ghost function Apply(s: State, step: Step): State {
    match step
    case BeginPublish(req, m) => s.(proc := ListNamed(PublishJob(req, m)))
    case BeginProbe(sha, tokenApp, expectedApp) => s.(proc := ListNamed(ProbeJob(sha, tokenApp, expectedApp)))
    case NamedReply(page) =>
      if s.proc.ListNamed? then Look(s, s.proc.job, page, ListAll(s.proc.job))
      else if s.proc.RecoverNamed? then Look(s, s.proc.job, page, RecoverAll(s.proc.job))
      else s
    case AllReply =>
      if s.proc.ListAll? then Look(s, s.proc.job, RunsOn(s.remote, s.proc.job.payload.headSha), Posting(s.proc.job))
      else if s.proc.RecoverAll? then Look(s, s.proc.job, RunsOn(s.remote, s.proc.job.payload.headSha), Idle(Failed))
      else s
    case RequestFails => s.(proc := Idle(Failed))
    case PostReply(id) =>
      if s.proc.Posting? then Land(s, s.proc.job, Some(id)).(proc := ReadingBack(s.proc.job, id)) else s
    case PostTimesOut(landed) =>
      if s.proc.Posting? then Land(s, s.proc.job, landed).(proc := RecoverNamed(s.proc.job)) else s
    case PostFails(landed) => if s.proc.Posting? then Land(s, s.proc.job, landed).(proc := Idle(Failed)) else s
    case ReadbackReply(run) => if s.proc.ReadingBack? then Settle(s, s.proc.job, run) else s
    case Append(at) => if s.proc.Appending? then ApplyAppend(s, at) else s
    case Crash => s.(proc := Idle(Failed))
    case ForeignRun(run) => s.(remote := s.remote + [run])
  }

  /** The last act: `append_entry` for a publish, nothing for a probe. */
  function ApplyAppend(s: State, at: string): State
    requires s.proc.Appending?
  {
    var done := Idle(Done(s.proc.job, s.proc.run.id, false, s.proc.verdict));
    if s.proc.job.purpose.ForProbe? then s.(proc := done)
    else
      var e := EntryOf(s.proc.job, s.proc.run.id, s.proc.verdict, at);
      var loaded := LoadLedger(s.ledger);
      if loaded.Err? || !RunIdFree(loaded.value, e.runId, e.commitSha) then s.(proc := Idle(Failed))
      else s.(proc := done, ledger := Entries(loaded.value + [e]))
  }

  ghost function Run(s: State, steps: seq<Step>): State {
    if steps == [] then s else Apply(Run(s, steps[..|steps| - 1]), steps[|steps| - 1])
  }

  ghost predicate Legal(o: Oracle, s: State, steps: seq<Step>) {
    steps == [] ||
    (Legal(o, s, steps[..|steps| - 1]) && Enabled(o, Run(s, steps[..|steps| - 1]), steps[|steps| - 1]))
  }

  predicate DistinctIds(remote: seq<CheckRun>) {
    forall i, j :: 0 <= i < j < |remote| ==> remote[i].id != remote[j].id
  }

  /** Any remote to begin with, no ledger file, nothing posted by this publisher. */
  predicate Init(s: State) {
    && DistinctIds(s.remote)
    && (forall r :: r in s.remote ==> r.id > 0 && NoColon(r.headSha))
    && s.ledger == Absent && s.proc == Idle(Nothing) && s.posted == map[]
  }
}

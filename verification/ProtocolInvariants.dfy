/** What every reachable state of the publication protocol satisfies, and why. */
module ProtocolInvariants {
  import opened Wrappers
  import opened Text
  import opened Evidence
  import opened Ledger
  import opened PublishGate
  import opened Protocol

  // ---- Filters ----

  lemma {:induction false} MatchingMembers(page: seq<CheckRun>, externalId: string)
    ensures forall r :: r in Matching(page, externalId) <==> r in page && r.externalId == externalId
  {
    if page != [] {
      MatchingMembers(page[..|page| - 1], externalId);
      assert forall r :: r in page <==> r in page[..|page| - 1] || r == page[|page| - 1];
    }
  }

  lemma {:induction false} RunsOnMembers(remote: seq<CheckRun>, sha: string)
    ensures forall r :: r in RunsOn(remote, sha) <==> r in remote && OnSha(r, sha)
  {
    if remote != [] {
      RunsOnMembers(remote[..|remote| - 1], sha);
      assert forall r :: r in remote <==> r in remote[..|remote| - 1] || r == remote[|remote| - 1];
    }
  }

  // ---- The invariant ----

  /** What a job in hand or on record promises. */
  ghost predicate SoundJob(o: Oracle, job: Job) {
    && job.expectedApp > 0
    && job.payload.externalId == ExternalId(RunIdOf(job), job.payload.headSha)
    && match job.purpose
       case ForEvidence(req, m) => EvidenceAccepted(o, req, m) && LivePassed(req) && job == PublishJob(req, m)
       case ForProbe(sha) => job.payload.name == SHADOW_CHECK_RUN_NAME && job.payload.headSha == sha
  }

  ghost predicate RemoteSound(s: State) {
    && DistinctIds(s.remote)
    && forall r :: r in s.remote ==> r.id > 0 && NoColon(r.headSha)
  }

  ghost predicate PostedSound(o: Oracle, s: State) {
    forall id :: id in s.posted ==> SoundJob(o, s.posted[id]) && RunOf(s.posted[id], id) in s.remote
  }

  ghost predicate PostedUnique(s: State) {
    forall a, b :: a in s.posted && b in s.posted && a != b ==>
      s.posted[a].payload.externalId != s.posted[b].payload.externalId
  }

  /** A ledger entry names a run of the remote, field by field. */
  predicate Names(remote: seq<CheckRun>, e: Entry) {
    && e.externalId == ExternalId(e.runId, e.commitSha)
    && e.headSha == e.commitSha
    && exists r :: r in remote && e.checkRunId == Some(r.id) && e.externalId == r.externalId
                   && OnSha(r, e.commitSha) && r.name == e.checkRunName && r.appId == Some(e.appId)
  }

  ghost predicate LedgerSound(s: State) {
    && s.ledger != Corrupt
    && (forall e :: e in EntriesOf(s.ledger) ==> Names(s.remote, e))
    && UniqueExternalIds(EntriesOf(s.ledger))
    && OneShaPerRunId(EntriesOf(s.ledger))
  }

  /** No run this publisher posted carries the id of the job. */
  ghost predicate NotPosted(s: State, job: Job) {
    forall id :: id in s.posted ==> s.posted[id].payload.externalId != job.payload.externalId
  }

  ghost predicate NotLedgered(s: State, externalId: string) {
    forall e :: e in EntriesOf(s.ledger) ==> e.externalId != externalId
  }

  /** The pre-check of the ledger still holds: only this process appends. */
  predicate Prechecked(s: State, job: Job) {
    job.purpose.ForEvidence? ==>
      && LoadLedger(s.ledger).Ok?
      && RunIdFree(EntriesOf(s.ledger), job.purpose.manifest.runId, job.purpose.manifest.commitSha)
  }

  ghost predicate ProcSound(o: Oracle, s: State) {
    match s.proc
    case Idle(last) => last.Done? ==> exists r :: r in s.remote && r.id == last.remoteId && Verifies(r, last.job)
    case ListNamed(job) => SoundJob(o, job) && Prechecked(s, job)
    case ListAll(job) => SoundJob(o, job) && Prechecked(s, job)
    case Posting(job) =>
      && SoundJob(o, job) && Prechecked(s, job)
      && (NoColon(job.payload.headSha) ==> NotPosted(s, job) && NotLedgered(s, job.payload.externalId))
    case ReadingBack(job, id) =>
      SoundJob(o, job) && Prechecked(s, job) && Unrecorded(s, job) && id in s.posted && s.posted[id] == job
    case RecoverNamed(job) => SoundJob(o, job) && Prechecked(s, job) && Unrecorded(s, job)
    case RecoverAll(job) => SoundJob(o, job) && Prechecked(s, job) && Unrecorded(s, job)
    case Appending(job, run, _) =>
      SoundJob(o, job) && Prechecked(s, job) && Unrecorded(s, job) && run in s.remote && Verifies(run, job)
  }

  /** Nothing is recorded under the id of the job, and what is posted under it is this job's. */
  ghost predicate Unrecorded(s: State, job: Job) {
    NoColon(job.payload.headSha) ==>
      && NotLedgered(s, job.payload.externalId)
      && forall id :: id in s.posted && s.posted[id].payload.externalId == job.payload.externalId ==>
           s.posted[id] == job
  }

  ghost predicate Inv(o: Oracle, s: State) {
    RemoteSound(s) && PostedSound(o, s) && PostedUnique(s) && LedgerSound(s) && ProcSound(o, s)
  }

  lemma InitInv(o: Oracle, s: State)
    requires Init(s)
    ensures Inv(o, s)
  {
  }

  // ---- One step ----

  lemma NamesGrow(remote: seq<CheckRun>, r: CheckRun, e: Entry)
    requires Names(remote, e)
    ensures Names(remote + [r], e)
  {
    var w :| w in remote && e.checkRunId == Some(w.id) && e.externalId == w.externalId
             && OnSha(w, e.commitSha) && w.name == e.checkRunName && w.appId == Some(e.appId);
    assert w in remote + [r];
  }

  /** A longer remote keeps everything but what is said about the new run. */
  lemma RemoteGrows(o: Oracle, s: State, r: CheckRun, s': State)
    requires Inv(o, s) && FreshId(s.remote, r.id) && NoColon(r.headSha)
    requires s' == s.(remote := s.remote + [r])
    ensures Inv(o, s')
  {
    forall e | e in EntriesOf(s'.ledger) ensures Names(s'.remote, e) {
      NamesGrow(s.remote, r, e);
    }
    forall i, j | 0 <= i < j < |s'.remote| ensures s'.remote[i].id != s'.remote[j].id {
      if j == |s.remote| { assert s.remote[i] in s.remote; }
    }
    if s.proc.Idle? && s.proc.last.Done? {
      var w :| w in s.remote && w.id == s.proc.last.remoteId && Verifies(w, s.proc.last.job);
      assert w in s'.remote;
    }
  }

  lemma SettleInv(o: Oracle, s: State, job: Job, r: CheckRun)
    requires Inv(o, s) && r in s.remote && SoundJob(o, job) && Prechecked(s, job)
    requires s.proc.ListNamed? || s.proc.ListAll? || Unrecorded(s, job)
    ensures Inv(o, Settle(s, job, r))
  {
  }

  lemma LookInv(o: Oracle, s: State, job: Job, page: seq<CheckRun>, none: Proc)
    requires Inv(o, s) && SoundJob(o, job) && Prechecked(s, job)
    requires s.proc.ListNamed? || s.proc.ListAll? || Unrecorded(s, job)
    requires forall r :: r in page ==> r in s.remote
    requires Matching(page, job.payload.externalId) == [] ==> Inv(o, s.(proc := none))
    ensures Inv(o, Look(s, job, page, none))
  {
    var matches := Matching(page, job.payload.externalId);
    if |matches| == 1 {
      MatchingMembers(page, job.payload.externalId);
      assert matches[0] in matches;
      SettleInv(o, s, job, matches[0]);
    }
  }

  /** The complete list shows no such id: then nothing posted and no ledger entry has it. */
  lemma CompleteListClears(o: Oracle, s: State, job: Job)
    requires Inv(o, s) && SoundJob(o, job) && NoColon(job.payload.headSha)
    requires Matching(RunsOn(s.remote, job.payload.headSha), job.payload.externalId) == []
    ensures NotPosted(s, job) && NotLedgered(s, job.payload.externalId)
  {
    var sha, x := job.payload.headSha, job.payload.externalId;
    RunsOnMembers(s.remote, sha);
    MatchingMembers(RunsOn(s.remote, sha), x);
    assert forall r :: r in s.remote && OnSha(r, sha) ==> r in RunsOn(s.remote, sha) && r.externalId != x;
    forall id | id in s.posted ensures s.posted[id].payload.externalId != x {
      var r := RunOf(s.posted[id], id);
      if r.externalId == x {
        ExternalIdDetermines(RunIdOf(s.posted[id]), r.headSha, RunIdOf(job), sha);
      }
    }
    forall e | e in EntriesOf(s.ledger) ensures e.externalId != x {
      var r :| r in s.remote && e.checkRunId == Some(r.id) && e.externalId == r.externalId && OnSha(r, e.commitSha);
      if e.externalId == x {
        SameShaNoColon(r.headSha, e.commitSha);
        ExternalIdDetermines(e.runId, e.commitSha, RunIdOf(job), sha);
      }
    }
  }

  lemma SameShaNoColon(a: string, b: string)
    requires Lower(a) == Lower(b) && NoColon(a)
    ensures NoColon(b)
  {
    LowerKeepsColons(a);
    LowerKeepsColons(b);
    forall i | 0 <= i < |b| ensures b[i] != ':' {
      assert Lower(a)[i] == Lower(b)[i] && a[i] != ':';
    }
  }

  lemma LandInv(o: Oracle, s: State, id: int, next: Proc)
    requires Inv(o, s) && s.proc.Posting? && MayLand(s, s.proc.job, Some(id))
    requires next in {ReadingBack(s.proc.job, id), RecoverNamed(s.proc.job), Idle(Failed)}
    ensures Inv(o, Land(s, s.proc.job, Some(id)).(proc := next))
  {
    var r := RunOf(s.proc.job, id);
    RemoteGrows(o, s, r, s.(remote := s.remote + [r]));
    PostedGrows(o, s, id);
  }

  lemma PostedGrows(o: Oracle, s: State, id: int)
    requires Inv(o, s) && s.proc.Posting? && MayLand(s, s.proc.job, Some(id))
    ensures var t := Land(s, s.proc.job, Some(id));
            PostedSound(o, t) && PostedUnique(t) && Unrecorded(t, s.proc.job)
  {
    var job := s.proc.job;
    assert RunOf(job, id) in s.remote + [RunOf(job, id)];
    forall k | k in s.posted ensures k != id {
      assert RunOf(s.posted[k], k) in s.remote;
    }
  }

  lemma AppendInv(o: Oracle, s: State, at: string)
    requires Inv(o, s) && s.proc.Appending? && at != ""
    ensures Inv(o, ApplyAppend(s, at))
    ensures ApplyAppend(s, at).proc == Idle(Done(s.proc.job, s.proc.run.id, false, s.proc.verdict))
  {
    var job, run := s.proc.job, s.proc.run;
    assert run in s.remote && run.id == run.id && Verifies(run, job);
    if job.purpose.ForEvidence? { LedgerGrows(o, s, at); }
  }

  /** The append of a publish is never refused. */
  lemma AppendEffect(o: Oracle, s: State, at: string)
    requires Inv(o, s) && s.proc.Appending? && s.proc.job.purpose.ForEvidence?
    ensures var e := EntryOf(s.proc.job, s.proc.run.id, s.proc.verdict, at);
            var done := Idle(Done(s.proc.job, s.proc.run.id, false, s.proc.verdict));
            && LoadLedger(s.ledger).Ok? && RunIdFree(LoadLedger(s.ledger).value, e.runId, e.commitSha)
            && ApplyAppend(s, at) == s.(proc := done, ledger := Entries(LoadLedger(s.ledger).value + [e]))
  {
    LedgerGrows(o, s, at);
  }

  lemma LedgerGrows(o: Oracle, s: State, at: string)
    requires Inv(o, s) && s.proc.Appending? && s.proc.job.purpose.ForEvidence?
    ensures var (e, entries) := (EntryOf(s.proc.job, s.proc.run.id, s.proc.verdict, at), EntriesOf(s.ledger));
            && LoadLedger(s.ledger) == Ok(entries) && RunIdFree(entries, e.runId, e.commitSha)
            && LedgerSound(s.(ledger := Entries(entries + [e])))
  {
    var job, run := s.proc.job, s.proc.run;
    var e := EntryOf(job, run.id, s.proc.verdict, at);
    var entries := EntriesOf(s.ledger);
    SameShaNoColon(run.headSha, job.payload.headSha);
    assert e.checkRunId == Some(run.id) && e.externalId == run.externalId && OnSha(run, e.commitSha);
    assert Names(s.remote, e);
    forall i | 0 <= i < |entries| ensures (entries + [e])[i].externalId != e.externalId {
      assert entries[i] in entries;
    }
  }

  lemma AllReplyInv(o: Oracle, s: State)
    requires Inv(o, s) && Enabled(o, s, AllReply)
    ensures Inv(o, Apply(s, AllReply))
  {
    var job := s.proc.job;
    var page := RunsOn(s.remote, job.payload.headSha);
    RunsOnMembers(s.remote, job.payload.headSha);
    if Matching(page, job.payload.externalId) == [] && NoColon(job.payload.headSha) {
      CompleteListClears(o, s, job);
    }
    LookInv(o, s, job, page, if s.proc.ListAll? then Posting(job) else Idle(Failed));
  }

  lemma NamedReplyInv(o: Oracle, s: State, page: seq<CheckRun>)
    requires Inv(o, s) && Enabled(o, s, NamedReply(page))
    ensures Inv(o, Apply(s, NamedReply(page)))
  {
    var job := s.proc.job;
    LookInv(o, s, job, page, if s.proc.ListNamed? then ListAll(job) else RecoverAll(job));
  }

  lemma PostEndsInv(o: Oracle, s: State, landed: Option<int>, next: Proc)
    requires Inv(o, s) && s.proc.Posting? && MayLand(s, s.proc.job, landed)
    requires next == RecoverNamed(s.proc.job) || next == Idle(Failed)
    ensures Inv(o, Land(s, s.proc.job, landed).(proc := next))
  {
    if landed.Some? { LandInv(o, s, landed.value, next); }
  }

  /** Beginning, failing and crashing touch neither remote nor ledger. */
  lemma QuietInv(o: Oracle, s: State, step: Step)
    requires Inv(o, s) && Enabled(o, s, step)
    requires step.BeginPublish? || step.BeginProbe? || step.RequestFails? || step.Crash?
    ensures Inv(o, Apply(s, step))
  {
  }

  lemma StepInv(o: Oracle, s: State, step: Step)
    requires Inv(o, s) && Enabled(o, s, step)
    ensures Inv(o, Apply(s, step))
  {
    match step
    case NamedReply(page) => NamedReplyInv(o, s, page);
    case AllReply => AllReplyInv(o, s);
    case PostReply(id) => LandInv(o, s, id, ReadingBack(s.proc.job, id));
    case PostTimesOut(landed) => PostEndsInv(o, s, landed, RecoverNamed(s.proc.job));
    case PostFails(landed) => PostEndsInv(o, s, landed, Idle(Failed));
    case ReadbackReply(run) => SettleInv(o, s, s.proc.job, run);
    case Append(at) => AppendInv(o, s, at);
    case ForeignRun(run) => RemoteGrows(o, s, run, Apply(s, step));
    case _ => QuietInv(o, s, step);
  }

  lemma {:induction false} RunInv(o: Oracle, s: State, steps: seq<Step>)
    requires Inv(o, s) && Legal(o, s, steps)
    ensures Inv(o, Run(s, steps))
  {
    if steps != [] {
      var before := steps[..|steps| - 1];
      RunInv(o, s, before);
      StepInv(o, Run(s, before), steps[|steps| - 1]);
    }
  }
}

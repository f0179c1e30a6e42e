/** From which states a landed, unrecorded run can still get its ledger entry. */
module ProtocolRecording {
  import opened Wrappers
  import opened Text
  import opened Evidence
  import opened Ledger
  import opened PublishGate
  import opened Protocol
  import opened ProtocolInvariants
  import opened ProtocolTheorems

  /** A publish under external id `x` of a commit the remote can know. */
  predicate PublishesUnder(job: Job, x: string) {
    job.purpose.ForEvidence? && job.payload.externalId == x && NoColon(job.payload.headSha)
  }

  /** The call that posted is still past its POST, and what it waits for can verify: the run it reads
      back is its own; the named query may show any run; the full list shows all of them. */
  predicate MayRecord(s: State, x: string) {
    match s.proc
    case Appending(job, _, _) => PublishesUnder(job, x)
    case ReadingBack(job, _) => PublishesUnder(job, x) && job.tokenApp == job.expectedApp
    case RecoverNamed(job) => PublishesUnder(job, x)
    case RecoverAll(job) =>
      PublishesUnder(job, x) && OneVerifies(Matching(RunsOn(s.remote, job.payload.headSha), x), job)
    case _ => false
  }

  predicate OneVerifies(runs: seq<CheckRun>, job: Job) { |runs| == 1 && Verifies(runs[0], job) }

  /** The run has landed under `x`, and the ledger has no entry for it. */
  ghost predicate Landed(s: State, id: int, x: string) {
    id in s.posted && s.posted[id].payload.externalId == x && NotLedgered(s, x)
  }

  /** A landed, unrecorded run can still be recorded by some legal continuation exactly while the call
      that posted it waits for an answer that can verify. */
  lemma RecordableIff(o: Oracle, s: State, id: int, x: string)
    requires Inv(o, s) && Landed(s, id, x)
    ensures (exists steps :: Legal(o, s, steps) && !NotLedgered(Run(s, steps), x)) <==> MayRecord(s, x)
    ensures MayRecord(s, x) ==> s.proc.job == s.posted[id]
  {
    if MayRecord(s, x) { var steps := Continuation(o, s, x); }
    forall steps | Legal(o, s, steps) && !MayRecord(s, x) ensures NotLedgered(Run(s, steps), x) {
      NeverRecorded(o, s, steps, id, x);
    }
  }

  // ---- Too late ----

  lemma {:induction false} NeverRecorded(o: Oracle, s: State, steps: seq<Step>, id: int, x: string)
    requires Inv(o, s) && Landed(s, id, x) && !MayRecord(s, x) && Legal(o, s, steps)
    ensures Landed(Run(s, steps), id, x) && !MayRecord(Run(s, steps), x)
  {
    if steps != [] {
      var before := steps[..|steps| - 1];
      NeverRecorded(o, s, before, id, x);
      RunInv(o, s, before);
      StaysLate(o, Run(s, before), steps[|steps| - 1], id, x);
    }
  }

  lemma StaysLate(o: Oracle, s: State, step: Step, id: int, x: string)
    requires Inv(o, s) && Enabled(o, s, step) && Landed(s, id, x) && !MayRecord(s, x)
    ensures Landed(Apply(s, step), id, x) && !MayRecord(Apply(s, step), x)
  {
    match step
    case NamedReply(page) => LateNamedReply(s, page, x);
    case AllReply => LateAllReply(o, s, id, x);
    case PostReply(landed) => LatePost(o, s, Some(landed), id, x);
    case PostTimesOut(landed) => LatePost(o, s, landed, id, x);
    case PostFails(landed) => LatePost(o, s, landed, id, x);
    case ReadbackReply(run) => LateReadback(o, s, run, x);
    case Append(at) => LateAppend(o, s, at, id, x);
    case ForeignRun(run) => LateForeign(o, s, run, id, x);
    case _ =>
  }

  lemma LateNamedReply(s: State, page: seq<CheckRun>, x: string)
    requires (s.proc.ListNamed? || s.proc.RecoverNamed?) && !MayRecord(s, x)
    ensures var t := Apply(s, NamedReply(page));
            !MayRecord(t, x) && t.posted == s.posted && t.ledger == s.ledger
  {
  }

  /** A sound job that is still to post is not under an id that has landed. */
  lemma LatePost(o: Oracle, s: State, landed: Option<int>, id: int, x: string)
    requires Inv(o, s) && s.proc.Posting? && MayLand(s, s.proc.job, landed) && Landed(s, id, x)
    ensures Landed(Land(s, s.proc.job, landed), id, x) && !PublishesUnder(s.proc.job, x)
  {
    assert NoColon(s.proc.job.payload.headSha) ==> s.proc.job.payload.externalId != x;
    assert RunOf(s.posted[id], id) in s.remote;
  }

  lemma LateReadback(o: Oracle, s: State, run: CheckRun, x: string)
    requires Inv(o, s) && Enabled(o, s, ReadbackReply(run)) && !MayRecord(s, x)
    ensures var t := Apply(s, ReadbackReply(run));
            !MayRecord(t, x) && t.posted == s.posted && t.ledger == s.ledger
  {
    PostedRunIsItself(o, s, run);
  }

  lemma LateAppend(o: Oracle, s: State, at: string, id: int, x: string)
    requires Inv(o, s) && Enabled(o, s, Append(at)) && Landed(s, id, x) && !MayRecord(s, x)
    ensures Landed(ApplyAppend(s, at), id, x) && !MayRecord(ApplyAppend(s, at), x)
  {
    SameShaNoColon(s.proc.run.headSha, s.proc.job.payload.headSha);
    AppendInv(o, s, at);
    RecordedAppend(s, at, x);
  }

  lemma LateAllReply(o: Oracle, s: State, id: int, x: string)
    requires Inv(o, s) && Enabled(o, s, AllReply) && Landed(s, id, x) && !MayRecord(s, x)
    ensures Landed(Apply(s, AllReply), id, x) && !MayRecord(Apply(s, AllReply), x)
  {
    var job := s.proc.job;
    if Matching(RunsOn(s.remote, job.payload.headSha), job.payload.externalId) == [] && NoColon(job.payload.headSha) {
      CompleteListClears(o, s, job);
    }
  }

  lemma LateForeign(o: Oracle, s: State, run: CheckRun, id: int, x: string)
    requires Inv(o, s) && Enabled(o, s, ForeignRun(run)) && Landed(s, id, x) && !MayRecord(s, x)
    ensures Landed(Apply(s, ForeignRun(run)), id, x) && !MayRecord(Apply(s, ForeignRun(run)), x)
  {
    if s.proc.RecoverAll? && PublishesUnder(s.proc.job, x) {
      var sha := s.proc.job.payload.headSha;
      var before := Matching(RunsOn(s.remote, sha), x);
      if before == [] { CompleteListClears(o, s, s.proc.job); }
      MatchingGrows(s.remote, run, sha, x);
    }
  }

  lemma MatchingGrows(remote: seq<CheckRun>, run: CheckRun, sha: string, x: string)
    ensures var (before, after) := (Matching(RunsOn(remote, sha), x), Matching(RunsOn(remote + [run], sha), x));
            after == before || after == before + [run]
  {
    var (grown, page) := (remote + [run], RunsOn(remote, sha));
    assert grown[..|grown| - 1] == remote && grown[|grown| - 1] == run;
    assert RunsOn(grown, sha) == page || RunsOn(grown, sha) == page + [run];
    var longer := page + [run];
    assert longer[..|longer| - 1] == page && longer[|longer| - 1] == run;
  }

  // ---- In time ----

  lemma Continuation(o: Oracle, s: State, x: string) returns (steps: seq<Step>)
    requires Inv(o, s) && MayRecord(s, x)
    ensures Legal(o, s, steps) && !NotLedgered(Run(s, steps), x)
  {
    steps := UntilAppending(o, s, x);
    RunInv(o, s, steps);
    var t := Run(s, steps);
    AppendRecords(o, t, x);
    steps := OneMore(o, s, steps, Append("now"));
  }

  lemma AppendRecords(o: Oracle, s: State, x: string)
    requires Inv(o, s) && s.proc.Appending? && PublishesUnder(s.proc.job, x)
    ensures Enabled(o, s, Append("now")) && !NotLedgered(Apply(s, Append("now")), x)
  {
    AppendInv(o, s, "now");
    RecordedAppend(s, "now", x);
  }

  lemma UntilAppending(o: Oracle, s: State, x: string) returns (steps: seq<Step>)
    requires Inv(o, s) && MayRecord(s, x)
    ensures Legal(o, s, steps) && Run(s, steps).proc.Appending? && Run(s, steps).proc.job == s.proc.job
    ensures PublishesUnder(s.proc.job, x)
  {
    steps := [];
    match s.proc {
      case Appending(_, _, _) =>
      case ReadingBack(job, id) =>
        ReadbackAppends(o, s);
        steps := OneMore(o, s, [], ReadbackReply(RunOf(job, id)));
      case RecoverNamed(job) => steps := FindByName(o, s, job);
      case RecoverAll(job) => steps := OneMore(o, s, [], AllReply);
    }
  }

  lemma ReadbackAppends(o: Oracle, s: State)
    requires Inv(o, s) && s.proc.ReadingBack? && s.proc.job.tokenApp == s.proc.job.expectedApp
    ensures var step := ReadbackReply(RunOf(s.proc.job, s.proc.id));
            Enabled(o, s, step) && Apply(s, step).proc.Appending? && Apply(s, step).proc.job == s.proc.job
  {
  }

  /** Whatever the token's app, a run of the expected app may turn up and be shown. */
  lemma FindByName(o: Oracle, s: State, job: Job) returns (steps: seq<Step>)
    requires Inv(o, s) && s.proc == RecoverNamed(job) && NoColon(job.payload.headSha)
    ensures Legal(o, s, steps) && Run(s, steps).proc.Appending? && Run(s, steps).proc.job == job
  {
    var id := FreshExists(s.remote);
    var run := RunOf(job.(tokenApp := job.expectedApp), id);
    steps := OneMore(o, s, [], ForeignRun(run));
    var t := Run(s, steps);
    assert run == t.remote[|s.remote|];
    OneShown(t, job, run);
    steps := OneMore(o, s, steps, NamedReply([run]));
  }

  lemma OneShown(s: State, job: Job, run: CheckRun)
    requires s.proc == RecoverNamed(job) && Verifies(run, job)
    ensures Apply(s, NamedReply([run])).proc == Appending(job, run, "verified_after_timeout")
  {
    assert [run][..0] == [];
    assert Matching([run], job.payload.externalId) == [run];
  }

  lemma {:induction false} FreshExists(remote: seq<CheckRun>) returns (id: int)
    ensures id > 0 && forall r :: r in remote ==> r.id < id
  {
    if remote == [] {
      id := 1;
    } else {
      var last := remote[|remote| - 1];
      id := FreshExists(remote[..|remote| - 1]);
      id := if last.id < id then id else last.id + 1;
    }
  }
}

# Verification of the local CI publisher, its gates and the campaign tools

This project models the parts of Claire de Binare whose correctness is hard to see from one
function: the protocol that turns CI evidence into a GitHub Check Run, the selection of tests for a
slice run, the gap clustering of ledger rows, the campaign supervisor with its chain detector, the
guard of the status documents, the completion guard with its reporter, and the candle/gate-trace
join. `dafny verify dfyconfig.toml` checks everything.

## How it is organised

| modules | what they model |
|---|---|
| `Evidence`, `RunCi`, `RunOutcomes` | building a manifest, the publish gate, `run_ci` with its early returns, what a finished run is |
| `Ledger`, `PublishGate` | the ledger file, evidence validation, payload and external id |
| `Protocol`, `ProtocolInvariants`, `ProtocolTheorems` | publisher, remote and ledger as a transition system, its inductive invariant, the theorems over every history |
| `ProtocolRecording` | from which states a landed run can still get its ledger entry |
| `ProtocolExamples` | concrete requests and histories on which the publisher falls short |
| `Publisher` | the publisher's methods; each request is a transition of the protocol |
| `SlicePolicy`, `SliceSelection`, `SliceMeaning` | path normalisation, prefix matching, selection of test groups |
| `GapClusters` | the one-pass clustering, the LAG/SUM query, the verdicts |
| `ChainDetector`, `ChainMeaning`, `Supervisor`, `SupervisorMeaning` | classification of event chains, the polling loop with log and exit code |
| `StatusFreshness`, `StatusClaims`, `StatusMeaning` | historical regions, live claims, agreement on one main commit |
| `CompletionGuard`, `Reporter`, `GuardMeaning` | validation of task states, the completion percentage |
| `GuardExamples` | concrete directories on which guard and reporter fall short |
| `CandleTrace` | the join of candles with gate trace rows |
| `Text`, `Wrappers` | code-point order, lower case, options and results |

Loops and objects of the source are methods and classes, proved against specification functions;
the properties are lemmas about those functions. The modules named `...Meaning`, `RunOutcomes` and the
lemmas named `...Means` say what each outcome is in the fields of the input alone, without the
functions that compute it.

## Assumptions on the remote

The protocol theorems hold under these assumptions, all of which are guards of `Protocol.Enabled`:

- The remote never deletes or edits a run and gives every new run a fresh positive id.
- The list without a name filter answers with every run on the SHA; the query with a name and
  `filter=latest` may answer with any part of the runs of that name. (GitHub pages and filters its
  lists by default, which the client does not undo: ci/publisher/backends.py:289-303.)
- A POST takes effect before the publisher's next request, or never. `LateWriteDuplicates` shows that
  at-most-once fails without this.
- One publisher at a time. Other apps may add runs at any moment.
- A run can be created only on a commit the remote knows, and commit names contain no colon.

SHA-256, JSON parsing and timestamp parsing are arbitrary functions. The loaded manifest's run_id is
not checked against the run_id pattern, so the external id is unambiguous because of the SHAs, not
because of the run_ids (`ExternalIdDetermines`, `ColonsCollide`).

## What the proofs found

Properties one might expect that the code does not have. Each has an input that shows it and the
exact condition under which the code has it:

- Not every landed run is recorded. After a crash between the POST and the append
  (`LandedRunUnrecorded`) no later call records the run, because every retry is a no-op that skips the
  append (`UnrecordedForever`). A landed, unrecorded run can still be recorded exactly while the call
  that created it is past its POST and waits for an answer that can verify (`RecordableIff`): its
  readback under the token of the expected app, the named query after a timeout, a full list with one
  matching run, or the append itself.
- `append_entry` does not check the new entry. An empty `--status-context` passes every gate, is
  published, and the ledger then never loads again (`EmptyContextWedgesLedger`, `UnloadableForever`;
  exact conditions `EntryLoadable`, `AppendLoadsAgain`).
- The gate tests `dirty_worktree` and `merge_evidence` with `is True` and `is False`. A manifest without
  the keys, or with `1` and `0` in them, passes every check and is published under cdb-local-ci
  (`MissingKeysPublished`, `NonBooleansPublished`). An accepted manifest, and so the one behind every
  run of that name, is clean and eligible exactly if both keys hold JSON booleans
  (`CleanIffKeysBoolean`, `NamedRunsHaveEvidence`); what the builder writes always holds them
  (`BuiltIsClean`).
- A run named cdb-local-ci need not have passed the policy gate: with a status context other than the
  default one, evidence is published under the default name without a pull request
  (`AnyFlagsPublished`). It passed the policy gate exactly if the pull request number is positive
  (`NamedRunsHaveEvidence`).
- A matching rule that asks for `full_fast` does not get it when another requested group has a test
  (`FullFastRequestDropped`, exact condition `FullFastRequestKept`).
- `normalize_changed_paths` is not idempotent (`NormalizeTwiceDiffers`, exact condition
  `NormalizeIdempotentIff`); run.py applies it twice.
- `missing_steps` may be empty without a complete chain, when the type summary supplies what the
  events lack (`NothingMissingNotComplete`, exact condition `CompleteChainIff`), and the reported last
  timestamp is not always the latest (`LatestDropped`, exact condition `LastIsLatestIff`).
- Membership in a historical region is decided by line numbers. On a line shared with a boundary
  marker this may differ from the order of the markers (`ClaimBesideEnd`, exact condition
  `InRegionIff`).
- The check that all surfaces declare one main commit compares with the first only. It is exact while
  at most one value is longer than the first (`CrossExact`), and not beyond (`CrossInexact`). Together
  with git's refusal of ambiguous abbreviations a strict validation does ensure one commit
  (`StrictMeansOneCommit`).
- The guard's file-name pattern is not anchored at the end: a file `LR-001-STATE.yaml-STATE.yaml`
  passes the guard, and the reporter does not find it (`GuardPassesReporterFails`, exact condition
  `ReportableIffExact`).
- A valid file can stop the guard: a blocked task whose reason is a number passes every rule, and
  cutting the reason for display raises, so the exit code is 2 (`NumberReasonStops`, exact condition
  `ValidStopsIff`).
- The guard bounds the tasks by a thousand only for ASCII digits: the pattern's digit class accepts every
  Unicode decimal digit, and with one of them 1001 tasks pass (`CrowdedPasses`, exact condition
  `ThousandIffAscii`).
- The one-decimal percentage reads 100.0 only for complete lists exactly up to 1999 tasks
  (`HundredIffAllDone`).
- An available trace need not be reconciled: an empty baseline object is compared with the default
  total 22, which then decides nothing (`AvailableUnreconciled`, exact condition `AvailableIff`).

Also: BLOCKED_GOVERNANCE is never reported, since its test repeats the one for BLOCKED_RUNTIME
(`EvaluateState`); with no gate rows the candles at negative times count as warmup (`NothingToJoin`).
Some code decides nothing: the reason "zero correlation_ids" against a cluster never applies (`Judge`),
nor does the second look at an event type as it is written (`MalformedMeans`), nor the third way in
which a path may match a prefix (`MatchesAtBoundary`).

## Model

| member | source | states |
|---|---|---|
| `Evidence.AssertPublishable` | ci/lib/evidence.py:339-385 | the loop over stages and required names accepts exactly the publishable manifests, where the last entry of a name counts |
| `Evidence.PublishableMeans` | ci/lib/evidence.py:339-385 | the gate in the fields of the manifest: flags, profile, overall status, every stage, and for each required name a last stage of that name that passed |
| `Evidence.GateExact` | ci/lib/evidence.py:72-202 | builder and gate together accept exactly clean, eligible, non-slice runs whose stages are PASS or explained optional skips and whose required names end in PASS |
| `Evidence.OverallMeans` | ci/lib/evidence.py:72-105 | PASS exactly for a clean tree and stages that all pass or are optional and skipped for a reason; BLOCKED exactly for a dirty tree, or if none fails and some is blocked; else FAIL |
| `Evidence.BuildMeans` | ci/lib/evidence.py:108-202 | the builder succeeds exactly for a run_id of the pattern, one of the two repository names and explained skips; what each field of the manifest then holds |
| `Evidence.GateMonotone` | ci/lib/evidence.py:339-385 | worsening any stages never turns a rejection into an acceptance |
| `Evidence.CleanIffKeysBoolean` | ci/lib/evidence.py:339-360 | an accepted manifest says clean and eligible exactly if both keys hold JSON booleans |
| `Evidence.GateIgnoresOtherFlags` | ci/lib/evidence.py:350-355 | replacing what the two keys hold keeps the acceptance exactly if dirty_worktree is not true and merge_evidence is not false |
| `Evidence.BuiltIsClean` | ci/lib/evidence.py:158-202 | what the builder returns holds booleans in both keys, so what it built and the gate accepted is clean and eligible |
| `Evidence.ValidRunIdHasNoColon` | ci/lib/evidence.py:19 | an accepted run_id contains no colon, even with the line break that `$` lets through |
| `RunCi.RunCi` | ci/scripts/run.py:151-418 | the orchestrator makes the calls and ends as specified on every way out: unknown profile or stage, a rejected run_id, a failed probe or closure, a runner or a step around the stages that raises |
| `RunOutcomes.CallsMean` | ci/scripts/run.py:231-373 | the runner calls of a finished run: none after a failed probe; the closure first if unit is selected, alone if it did not pass; else every selected stage but report, as often and in the order as selected |
| `RunOutcomes.ManifestMeans` | ci/scripts/run.py:260-418 | the manifest of a finished run: probe, calls and report as stages, git facts, label, and merge evidence exactly outside slice mode and slice profile |
| `RunOutcomes.ExitMeans` | ci/scripts/run.py:268-418 | exit 0 exactly for a run through no early return with overall status PASS, exit 2 exactly for one with BLOCKED, else 1 |
| `RunOutcomes.ZeroIffAllGreen` | ci/scripts/run.py:268-418 | exit 0 exactly for a clean tree, a passed probe and closure, and calls that all passed or were optional and skipped for a reason |
| `RunOutcomes.FinishesIff` | ci/scripts/run.py:151-373 | with runners that return explained results a run finishes exactly if nothing around the stages raises, profile, run_id and repository are accepted and every selected stage has a runner |
| `RunCi.SliceRunNeverAccepted` | ci/scripts/run.py:168-178 | no slice-mode or slice-profile run is accepted by the gate, whatever its stages return |
| `RunCi.SingleStageNeverAccepted` | ci/scripts/run.py:231-373 | no single-stage run is accepted, even if its runner returns a foreign stage name |
| `RunCi.FewCallsNeverAccepted` | ci/scripts/run.py:260-373 | a manifest from fewer than four runner calls, early returns among them, is never accepted |
| `RunCi.AcceptedExitsZero` | ci/scripts/run.py:385-418 | an accepted run exits 0 |
| `RunCi.UnitRunsGuarded` | ci/scripts/run.py:249-373 | before any unit call, one that raises included, the temp-root probe passed and the dependency closure returned PASS |
| `RunCi.CleanFastRunAccepted` | ci/scripts/run.py:151-418 | the gate does accept a clean fast run in which every stage passes |
| `Ledger.FindIsExact` | ci/publisher/ledger.py:146-165 | with unique external ids the lookup never raises and finds exactly the entry there is |
| `Ledger.LoadsIff` | ci/publisher/ledger.py:70-101 | the file loads exactly if absent, or if every entry has its six fields and no token mark in any text |
| `Ledger.LedgerFile.AppendEntry` | ci/publisher/ledger.py:168-185 | refuses exactly unreadable ledgers and reused run_ids, otherwise appends at the end |
| `Ledger.AppendLoadsAgain` | ci/publisher/ledger.py:70-185 | after an append the file loads again exactly when the new entry is loadable |
| `PublishGate.ValidateEvidence` | ci/publisher/evidence.py:157-185 | returns a manifest exactly if digest, artifact hashes, freshness, the publish gate and the repository check all pass |
| `PublishGate.EvidenceMeans` | ci/publisher/evidence.py:137-185 | evidence is accepted exactly if digest, schema, repository name, SHA, every artifact's hash and the age within the limit are right, the gate accepts, and the repository resolves |
| `PublishGate.PassGates` | ci/publisher/cli.py:519-587 | the gates in the order of the code let exactly the admitted requests through: commit twice there, clean worktree, and with a pull request its head the commit at both reads and the policy passed |
| `PublishGate.AdmittedMeans` | ci/publisher/cli.py:519-587 | exactly which requests are admitted, in the fields of the request, the manifest and the ledger |
| `PublishGate.ExternalIdDetermines` | ci/publisher/models.py:84-88 | an external id gives back run_id and SHA if the SHAs or the run_ids have no colon |
| `PublishGate.ValidRunIdsDetermine` | ci/publisher/models.py:84-88 | for run_ids the builder accepts, without any assumption on the SHAs |
| `PublishGate.ColonsCollide` | ci/publisher/models.py:84-88 | otherwise two runs may share an external id |
| `ProtocolInvariants.StepInv` | ci/publisher/backends.py:305-522 | every transition keeps the invariant: posted runs are unique and sound, ledger entries name remote runs, the process in hand holds what it checked |
| `ProtocolInvariants.CompleteListClears` | ci/publisher/backends.py:305-327 | a complete list without the external id means nothing posted or recorded has it, on any SHA |
| `ProtocolTheorems.AtMostOnce` | ci/publisher/backends.py:393-522 | in every history no two runs of this publisher share an external id, through timeouts, failures and crashes |
| `ProtocolTheorems.NoDuplicates` | ci/publisher/backends.py:393-522 | so a remote that starts empty and has no other writer never holds two runs with one external id |
| `ProtocolTheorems.NamedRunsHaveEvidence` | ci/publisher/cli.py:519-587 | every run named cdb-local-ci stands for evidence accepted for its SHA: digest, artifacts, freshness, gate, all four required stages; clean and eligible exactly if both keys hold booleans; the commit there, the worktree clean, and with a pull request, which the default context demands, the policy passed and the head the SHA at both reads; the probe creates none |
| `ProtocolTheorems.OkMeansVerified` | ci/publisher/backends.py:329-522 | every successful end, on each of the three paths, leaves a completed run with the expected app, name, SHA, conclusion and external id |
| `ProtocolTheorems.LedgerAlwaysSound` | ci/publisher/ledger.py:104-185 | in every reachable state entries name existing runs, external ids are unique, each run_id has one SHA, the lookup never raises |
| `ProtocolTheorems.HistoryOnlyGrows` | ci/publisher/ledger.py:168-185 | old runs and old entries stay a prefix |
| `ProtocolTheorems.AppendNeverRefused` | ci/publisher/cli.py:558-611 | after the pre-check the append is never refused for run_id reuse |
| `ProtocolTheorems.RetryConverges` | ci/publisher/backends.py:437-522 | once a POST landed, the same publish over a responsive remote ends after at most two replies as a verified no-op, with remote and ledger unchanged, and until then a reply is due (the token's app being the expected one, and no other app using the id on that SHA) |
| `ProtocolTheorems.PublishSucceeds` | ci/publisher/cli.py:519-640 | an admitted request with a new external id, over a remote that answers, ends with exactly one new run and one new entry |
| `ProtocolTheorems.LookMeans` | ci/publisher/backends.py:305-391 | where a page of runs leads: a single run with the external id counts if its six fields are right, several or a differing one fail |
| `ProtocolTheorems.FullListMeans` | ci/publisher/backends.py:305-327 | the POST follows exactly if no run on the SHA, in whatever case, has the external id |
| `ProtocolTheorems.WrittenMeans` | ci/publisher/cli.py:573-611 | every field of the payload and of the ledger entry of a publish |
| `ProtocolTheorems.ProbeMeans` | ci/publisher/cli.py:891-903 | the payload of the probe: shadow name, the SHA, an external id of its own |
| `ProtocolTheorems.RecordedIff` | ci/publisher/cli.py:585-611 | over every history an external id gets its ledger entry exactly by an append of some publish under that id |
| `ProtocolRecording.RecordableIff` | ci/publisher/backends.py:437-522 | in every state with the invariant a landed, unrecorded id is recorded by some legal continuation exactly while the call that posted it is past the POST and what it waits for can verify; no other call can record it |
| `ProtocolTheorems.UnrecordedForever` | ci/publisher/cli.py:585-611 | a landed run that its own call did not record is never recorded by any later call |
| `ProtocolTheorems.EntryLoadable` | ci/publisher/cli.py:589-611 | exactly which appended entries the next load accepts |
| `ProtocolTheorems.UnloadableForever` | ci/publisher/ledger.py:70-101 | once the ledger does not load, no publish is admitted again and the file never changes |
| `ProtocolExamples.AnyFlagsPublished` | ci/publisher/cli.py:193-199 | any flags but a true dirty_worktree and a false merge_evidence are published under cdb-local-ci, without a pull request and the policy gate, if the status context is not the default one |
| `ProtocolExamples.MissingKeysPublished` | ci/lib/evidence.py:339-360 | a manifest with neither key is published under cdb-local-ci and does not say clean |
| `ProtocolExamples.NonBooleansPublished` | ci/lib/evidence.py:246-250 | so is one whose keys hold 1 and 0 |
| `ProtocolExamples.CrashAfterPost` | ci/publisher/backends.py:464-522 | from any state in which a request can begin, a crash after the POST leaves a landed, unrecorded run |
| `ProtocolExamples.LandedRunUnrecorded` | ci/publisher/cli.py:585-611 | a concrete such history from nothing |
| `ProtocolExamples.EmptyContextWedgesLedger` | ci/publisher/ledger.py:70-185 | a concrete history in which an empty status context is published and the ledger no longer loads |
| `ProtocolExamples.LateWriteDuplicates` | ci/publisher/backends.py:464-506 | a POST times out unlanded, the readback finds nothing, the retry publishes; if the first POST then lands, two runs share the external id |
| `Publisher.CheckRunBackend.VerifyRemote` | ci/publisher/backends.py:329-375 | accepts exactly the runs with the expected app, name, SHA, status, conclusion and external id; a conflicting run is never accepted |
| `Publisher.CheckRunBackend.FindByExternalId` | ci/publisher/backends.py:305-327 | named query, broader query, ambiguity: each answer is a transition of the protocol |
| `Publisher.CheckRunBackend.Recover` | ci/publisher/backends.py:465-506 | after a timeout success means the run was read back and verified |
| `Publisher.CheckRunBackend.Create` | ci/publisher/backends.py:462-522 | after the POST success means the created run was read back and verified |
| `Publisher.CheckRunBackend.Publish` | ci/publisher/backends.py:393-522 | success means a verified run on the remote, a no-op is an existing one, a dry run changes nothing, every call is logged |
| `Publisher.Session.AppendToLedger` | ci/publisher/cli.py:589-611 | the append after a verified write succeeds and adds exactly this entry |
| `Publisher.CmdPublish` | ci/publisher/cli.py:519-640 | exits 0 only for admitted evidence with a verified run; the ledger gains exactly its entry, or nothing for a no-op; a refused request touches neither remote nor ledger, an admitted one that fails has reached the remote |
| `Publisher.CmdAppAuthProbe` | ci/publisher/cli.py:823-942 | writes only under the shadow name and in the expected repository, which empty arguments stand for, and never to the ledger; fails for other arguments without a request, and for these only after one |
| `SlicePolicy.NormalizeChangedPaths` | ci/lib/slice_selection.py:55-65 | the sorted, duplicate-free list of the normalised non-blank paths |
| `SliceMeaning.NormalizedMeans` | ci/lib/slice_selection.py:55-65 | which paths result, from stripping, turning backslashes and dropping ./ |
| `SliceMeaning.StripMeans` | ci/lib/slice_selection.py:59 | only blanks go, from both ends, and all of them |
| `SliceMeaning.DropMeans` | ci/lib/slice_selection.py:62-63 | only whole ./ go, from the front, and all of them |
| `SlicePolicy.NormalizeTwiceDiffers` | ci/lib/slice_selection.py:55-65 | normalising `./` twice gives another result than once |
| `SlicePolicy.NormalizeIdempotentIff` | ci/lib/slice_selection.py:55-65 | a second pass changes nothing exactly when no changed path that is not blank hides a blank or its end behind `./` prefixes |
| `SlicePolicy.MatchesAtBoundary` | ci/lib/slice_selection.py:123-132 | a prefix matches itself and what lies below it, and nothing else |
| `SliceMeaning.MatchMeans` | ci/lib/slice_selection.py:123-132 | character by character: the path begins with the prefix without its trailing slashes, of either kind, and ends there or goes on with a slash |
| `SlicePolicy.RuleErrorIff` | ci/lib/slice_selection.py:87-120 | validation of the path rules raises exactly if some rule is invalid |
| `SliceSelection.SelectSliceTestGroups` | ci/lib/slice_selection.py:192-352 | the loops over paths, rules and lanes compute the specified selection, reasons included |
| `SliceSelection.SelectExact` | ci/lib/slice_selection.py:241-352 | narrow exactly when every path matched, no rule forced the fallback and some test remains; then the tests are the sorted union over all requested groups but full_fast |
| `SliceMeaning.NarrowIff` | ci/lib/slice_selection.py:87-352 | narrow exactly if the policy is sound, every path hits a rule, none a forcing one, and some test is wanted; all in the fields of policy and paths |
| `SliceMeaning.NarrowMeans` | ci/lib/slice_selection.py:143-352 | the tests are exactly those that some requested group but full_fast lists and that are not blank, with slashes turned; the groups exactly the requested ones but full_fast |
| `SliceMeaning.OutcomeMeans` | ci/lib/slice_selection.py:160-352 | the other fields: ids, paths, arguments, and what a full run reports |
| `SliceMeaning.ReasonMeans` | ci/lib/slice_selection.py:250-345 | why everything runs: the first forcing rule of the first forced path, a path without rule, no group, none but full_fast, or no test |
| `SliceMeaning.ErrorMeans` | ci/lib/slice_selection.py:219-240 | the reason for an unsound policy, read off the message |
| `SliceMeaning.ReasonsMean` | ci/lib/slice_selection.py:241-352 | the reasons of a narrow selection, exactly: path, rule and group, and lane or profile |
| `SliceMeaning.UnclassifiedMeans` | ci/lib/slice_selection.py:262-280 | the reported paths without rule, normalised again |
| `SliceSelection.SelectMonotone` | ci/lib/slice_selection.py:241-333 | more changed paths keep every test of a narrow selection or run everything |
| `SliceSelection.PathOrderIrrelevant` | ci/lib/slice_selection.py:55-65 | permuting or repeating changed paths gives the identical result |
| `SliceSelection.RuleOrderIrrelevant` | ci/lib/slice_selection.py:241-325 | permuting or repeating rules leaves groups, tests and the full-fast flag |
| `SliceSelection.FullFastRequestDropped` | ci/lib/slice_selection.py:318-325 | a matching rule that asks for full_fast may not get it |
| `SliceSelection.FullFastRequestKept` | ci/lib/slice_selection.py:300-333 | it does exactly when the other requested groups have no test |
| `SliceSelection.CommandExact` | ci/lib/slice_selection.py:355-370 | the unit command runs the narrow tests, or else the policy's full-fast arguments |
| `GapClusters.FindClusters` | scripts/_3343_verify_pb1_clusters.py:68-112 | the clusters concatenate to the input, inner gaps are at most an hour, boundary gaps more; each record sums up its events |
| `GapClusters.PartitionUnique` | scripts/_3343_verify_pb1_clusters.py:68-112 | there is only one such partition |
| `GapClusters.BeginsMeans` | scripts/_3343_verify_pb1_clusters.py:83-98 | row by row: a cluster begins exactly at the first row and at each row more than an hour after the one before |
| `GapClusters.RecordMeans` | scripts/_3343_verify_pb1_clusters.py:102-112 | the ids and the trade flag of a record, event by event |
| `GapClusters.ClusterIdIsIndex` | scripts/_3343_verify_pb1_clusters.py:203-222 | the windowed sum over peers gives each row one more than the index of its cluster, however ties are ordered |
| `GapClusters.GroupsAreClusters` | scripts/_3343_verify_pb1_clusters.py:203-234 | the groups of the query hold exactly the rows of the clusters, and no row has an id beyond those |
| `GapClusters.HoldVerdict` | scripts/_3343_verify_pb1_clusters.py:177-192 | HOLD exactly if no cluster spans two hours, and then every cluster is excluded; without clusters it raises |
| `GapClusters.Judge` | scripts/_3343_verify_pb1_clusters.py:145-155 | the reasons against a cluster, in order: short of two hours, no decision, no order or fill with an id |
| `GapClusters.ClusterVerdict` | scripts/_3343_verify_pb1_clusters.py:68-192 | from rows to verdict: HOLD exactly if no run of the unique partition spans two hours |
| `ChainDetector.Detect` | tools/arvp_chain_detector.py:81-202 | the sorting and deduplicating loops compute the specified detection, or raise on a type that is no text |
| `ChainMeaning.ClassifyMeans` | tools/arvp_chain_detector.py:81-112 | each status exactly, from which steps the types of the events, or of the summary, stand for |
| `ChainMeaning.MalformedMeans` | tools/arvp_chain_detector.py:51-65 | malformed exactly if the type stands for no step or the time is absent or blank |
| `ChainMeaning.MissingMeans` | tools/arvp_chain_detector.py:147-163 | the missing steps, in order: those that neither an event nor the summary shows |
| `ChainMeaning.CountMeans` | tools/arvp_chain_detector.py:180-182 | the malformed count is the number of malformed events |
| `ChainMeaning.TimesMean` | tools/arvp_chain_detector.py:118-155 | first and last time are the earliest and the latest of the readable events whose id no earlier event has |
| `ChainMeaning.IdsMean` | tools/arvp_chain_detector.py:118-145 | the reported ids are those of the events with a readable time, None without any |
| `ChainMeaning.WindowMeans` | tools/arvp_chain_detector.py:184-237 | an export window exactly for a complete chain, and then the two times |
| `ChainDetector.ReportedIds` | tools/arvp_chain_detector.py:118-145 | reported ids are distinct, in the order of the times of their first events, and exactly the ids of the events with a readable time |
| `ChainDetector.ReportedTimes` | tools/arvp_chain_detector.py:147-237 | the first time is the earliest readable one, first is not after last, the export window, worked out a second time, is the same |
| `ChainDetector.CompleteChainSound` | tools/arvp_chain_detector.py:81-163 | a complete chain has no malformed event and no missing step |
| `ChainDetector.CompleteChainIff` | tools/arvp_chain_detector.py:81-163 | exactly which inputs are complete: nothing malformed or missing, and the summary supplied no step that the events lack |
| `ChainDetector.NothingMissingNotComplete` | tools/arvp_chain_detector.py:81-163 | one SIGNAL event and a summary of the rest: nothing missing, nothing malformed, not complete |
| `ChainDetector.LastIsLatestIff` | tools/arvp_chain_detector.py:125-155 | the last time is the latest readable one exactly if an event of that time repeats no earlier id |
| `ChainDetector.LatestDropped` | tools/arvp_chain_detector.py:125-155 | of two events with one id the later time is not reported |
| `Supervisor.FirstNamed` | tools/arvp_campaign_supervisor.py:152-156 | the first probe of a name answers |
| `Supervisor.DetectChain` | tools/arvp_campaign_supervisor.py:178-198 | a chain only from a usable ledger probe whose lane count, if known, is positive |
| `Supervisor.EvaluateState` | tools/arvp_campaign_supervisor.py:218-260 | the order of blocks, chain, interruption and clock; the governance state is never returned |
| `SupervisorMeaning.StateMeans` | tools/arvp_campaign_supervisor.py:152-260 | each of the six states exactly, in terms of the first probe of each name, the campaign and the clock; the deadline counts from its own second |
| `SupervisorMeaning.EntryMeans` | tools/arvp_campaign_supervisor.py:263-350 | what an entry says of its cycle, and when the cycle raises |
| `SupervisorMeaning.RunEnds` | tools/arvp_campaign_supervisor.py:45-53 | with which code a run ends: that of its last state, or zero by the bound or once |
| `SupervisorMeaning.RunGoesOn` | tools/arvp_campaign_supervisor.py:429-458 | without a code every observation is used up, or the next one raises |
| `SupervisorMeaning.DeadlineEnds` | tools/arvp_campaign_supervisor.py:250-256 | a run that ends by its deadline does so in the first cycle at or after it |
| `SupervisorMeaning.WrittenMeans` | tools/arvp_campaign_supervisor.py:353-361 | the log gains all entries if one is kept, the page shows the last |
| `Supervisor.ChainFoundSound` | tools/arvp_campaign_supervisor.py:178-245 | a found chain: five probes not blocked, lane count positive if known, no malformed event, no missing step, distinct ids in time order, earliest first time, same export window |
| `Supervisor.ChainIsFound` | tools/arvp_campaign_supervisor.py:178-245 | a usable ledger probe with one event of each step does yield the found state |
| `Supervisor.ChainDetailsIff` | tools/arvp_campaign_supervisor.py:263-350 | an entry carries chain details exactly if a chain is detected, which outside blocked states is the found state |
| `Supervisor.Reports.RunLoop` | tools/arvp_campaign_supervisor.py:420-458 | the log gains exactly the specified entries, the status page shows the last, a dry run writes neither |
| `Supervisor.LogFollowsWorld` | tools/arvp_campaign_supervisor.py:429-445 | one entry per cycle, in order and numbered, each about its own observation |
| `Supervisor.LogIsFaithful` | tools/arvp_campaign_supervisor.py:429-458 | only the last entry can be anything but running |
| `Supervisor.ExitCodeMatchesLog` | tools/arvp_campaign_supervisor.py:45-53 | exit zero exactly if no logged state is other than running, else the code that only the last state has |
| `Supervisor.CyclesBounded` | tools/arvp_campaign_supervisor.py:432-454 | at most max_cycles cycles run, at most one with once |
| `Supervisor.LogOnlyGrows` | tools/arvp_campaign_supervisor.py:353-358 | later observations change nothing that is logged, nor an outcome reached |
| `Supervisor.ExitTenIsFirstChain` | tools/arvp_campaign_supervisor.py:447-450 | a run that exits with the chain code ends on the first cycle that detects a chain |
| `StatusFreshness.ParseSurface` | tools/validate_status_freshness.py:247-316 | the loop over markers computes the specified regions and failures |
| `StatusMeaning.ParsedMeans` | tools/validate_status_freshness.py:260-308 | for any markers: each opening as-of marker spans to the first end after it, and a failure stands for each marker that is nested, closes nothing or is never closed |
| `StatusFreshness.MarkersConserved` | tools/validate_status_freshness.py:260-308 | opens and ends together are twice the regions plus the structural failures |
| `StatusFreshness.RegionsOrdered` | tools/validate_status_freshness.py:260-297 | each region ends at or before the next starts |
| `StatusFreshness.SoundIffAlternating` | tools/validate_status_freshness.py:260-308 | no structural failure exactly if markers alternate, and then region k is the k-th pair with its date |
| `StatusFreshness.InRegionIff` | tools/validate_status_freshness.py:211-230 | a marker other than a boundary lies in a region exactly if one is open where it stands and an end follows, or if some region starts or ends on its line |
| `StatusFreshness.ClaimBesideEnd` | tools/validate_status_freshness.py:217-230 | on a shared line a claim after an end counts as inside |
| `StatusClaims.CheckHistoricalMarking` | tools/validate_status_freshness.py:407-459 | structural failures, one verdict per region, one failure per hidden claim, in this order |
| `StatusMeaning.ResultsMean` | tools/validate_status_freshness.py:407-557 | every result of a document, with line, topic and status |
| `StatusClaims.EachClaimOnce` | tools/validate_status_freshness.py:446-467 | every live claim is either hidden or live, exactly once, repeats included |
| `StatusClaims.ResultsConserved` | tools/validate_status_freshness.py:407-690 | the number of results of a surface is failures plus regions plus live claims plus text results |
| `StatusClaims.IssueResolver.State` | tools/validate_status_freshness.py:152-162 | an issue is asked about at most once and its answer never changes |
| `StatusMeaning.LiveMeans` | tools/validate_status_freshness.py:470-555 | an issue claim passes exactly if the answer is its state, is unverified exactly without an answer; a commit claim passes exactly if it has 7 to 40 hex digits and git reaches it, is unverified exactly if git is unavailable |
| `StatusClaims.ValidateDocuments` | tools/validate_status_freshness.py:665-692 | all results are those of one fixed set of answers, the ones cached at the end |
| `StatusMeaning.DocAcceptedIff` | tools/validate_status_freshness.py:407-690 | a document lets the validation exit zero exactly if no marker is faulty, regions are dated, no live claim hides, live and prose results are fine |
| `StatusMeaning.AllAcceptedIff` | tools/validate_status_freshness.py:665-692 | and all documents do exactly if each does |
| `StatusClaims.CheckCrossSurface` | tools/validate_status_freshness.py:623-662 | one failure per declared commit that does not agree with the first, else one pass |
| `StatusMeaning.CrossMeans` | tools/validate_status_freshness.py:638-661 | the results exactly: a failure for each value that parts from the first in some character, else one pass |
| `StatusMeaning.DeclaredMeans` | tools/validate_status_freshness.py:623-637 | the values compared are those of all commit claims outside regions |
| `StatusClaims.CrossExact` | tools/validate_status_freshness.py:638-661 | comparing with the first decides pairwise agreement while at most one value is longer than the first |
| `StatusClaims.CrossInexact` | tools/validate_status_freshness.py:638-661 | with two longer values, values of the same lengths pass and disagree |
| `StatusClaims.StrictMeans` | tools/validate_status_freshness.py:665-692 | an accepted strict validation: markers alternate, regions dated no later than the header, no hidden claim, every issue in the state declared, every commit reached by git |
| `StatusClaims.StrictMeansOneCommit` | tools/validate_status_freshness.py:20-24 | and all surfaces declare one and the same commit, if git resolves only unambiguous abbreviations |
| `CompletionGuard.CompletionGuard.ValidateManifest` | scripts/lr004_completion_guard.py:75-149 | no error and true exactly for a well-formed manifest with strictly ascending ids; raises exactly on an id that is no text beside a title |
| `CompletionGuard.CompletionGuard.ScanStateFiles` | scripts/lr004_completion_guard.py:151-174 | no error exactly if every globbed name matches and no task has two files; the registry always maps each task to the first matching file |
| `CompletionGuard.CompletionGuard.CrossValidate` | scripts/lr004_completion_guard.py:176-187 | no error exactly if tasks and state files are the same set |
| `CompletionGuard.CompletionGuard.ValidateStateFile` | scripts/lr004_completion_guard.py:189-299 | no error exactly for a complete and consistent file; raises exactly on a status or reason code that cannot be hashed or an evidence path that is no text; a blocked task is always listed |
| `CompletionGuard.CompletionGuard.ValidateAll` | scripts/lr004_completion_guard.py:317-389 | exit 0 exactly if everything checked is valid and can be shown; exit 2 exactly if the manifest raises, a named task is not registered or a file checked raises; else 1; on exit 0 the two counts are those of the files with each status and add up to the tasks |
| `GuardMeaning.ValidMeans` | scripts/lr004_completion_guard.py:75-299 | everything checked is valid: manifest entries, names and files field by field, each task with exactly one file |
| `GuardMeaning.StateMeans` | scripts/lr004_completion_guard.py:189-299 | a valid state file, DONE or BLOCKED, character by character |
| `GuardMeaning.RaisesMeans` | scripts/lr004_completion_guard.py:213-362 | which state files make the check raise |
| `GuardMeaning.StopsMeans` | scripts/lr004_completion_guard.py:335-362 | what ends the check with code 2: a task without entry, or a first file that raises |
| `GuardMeaning.GlobMeans` | scripts/lr004_completion_guard.py:158 | the names looked at, each as often as it is listed |
| `CompletionGuard.ValidStopsIff` | scripts/lr004_completion_guard.py:347-362 | on valid files the check ends with code 2 exactly if it shows a blocked reason that cannot be cut |
| `Reporter.TasksMatchFiles` | scripts/lr004_completion_guard.py:176-187 | after a passing check tasks and state files are in bijection |
| `Reporter.GuardBoundsTasks` | scripts/lr004_completion_guard.py:103-149 | and there are at most 1000 tasks if their ids are ASCII |
| `Reporter.GenerateSnapshot` | scripts/lr_reporter.py:111-200 | succeeds exactly if every entry has id and title, its file is found under its exact name and has a status, and no blocked entry holds a date as blocked_since; it then counts done and blocked |
| `GuardMeaning.ReportMeans` | scripts/lr_reporter.py:80-135 | exactly when it succeeds, in the fields of manifest and files |
| `GuardMeaning.CountMeans` | scripts/lr_reporter.py:146-152 | the counts are the numbers of entries whose file has the status |
| `GuardMeaning.TenthsMeans` | scripts/lr_reporter.py:179-194 | the percentage is the nearest tenth, the even one of two |
| `Reporter.HundredIffAllDone` | scripts/lr_reporter.py:179-194 | the rounded percentage tells complete lists from incomplete ones exactly below 2000 tasks |
| `Reporter.ReportableIffExact` | scripts/lr_reporter.py:80-92 | after a passing check the reporter succeeds exactly if no file name goes on after the suffix |
| `Reporter.GuardedReport` | scripts/lr_reporter.py:125-194 | then done plus blocked is the total, and 100.0 is printed exactly if every task is done |
| `GuardExamples.GuardPassesReporterFails` | scripts/lr004_completion_guard.py:158-174 | a directory that the guard passes and the reporter rejects |
| `GuardExamples.NumberReasonStops` | scripts/lr004_completion_guard.py:358-362 | a valid directory on which the guard exits 2, and that the reporter takes |
| `GuardExamples.CrowdedPasses` | scripts/lr004_completion_guard.py:103-149 | with any digit beyond ASCII a check of 1001 tasks passes |
| `GuardExamples.ThousandIffAscii` | scripts/lr004_completion_guard.py:103-149 | a passing check means at most 1000 tasks exactly if the patterns accept ASCII digits only |
| `CandleTrace.IndexGate` | tools/build_signal_aware_candle_trace.py:76-81 | the index by time agrees with a scan of the gate trace; it fails exactly on unreadable or repeated times |
| `CandleTrace.BuildTrace` | tools/build_signal_aware_candle_trace.py:67-196 | the two loops compute the specified trace, or raise |
| `CandleTrace.ReadableMeans` | tools/build_signal_aware_candle_trace.py:67-140 | the trace is built exactly from readable times, no gate time twice, and a baseline total that is a number if there |
| `CandleTrace.CountersMean` | tools/build_signal_aware_candle_trace.py:83-130 | the counters are the numbers of candles on a ready row, on no row, before every row |
| `CandleTrace.VerdictsMean` | tools/build_signal_aware_candle_trace.py:132-145 | reconciled and available, exactly |
| `CandleTrace.StepsFaithful` | tools/build_signal_aware_candle_trace.py:89-130 | one step per candle in order, joined exactly if some gate row has its time, with that row's values |
| `CandleTrace.CountersAgree` | tools/build_signal_aware_candle_trace.py:83-130 | signals add up to the buy count; joined plus missing steps are the candles |
| `CandleTrace.WarmupIsEarly` | tools/build_signal_aware_candle_trace.py:99-105 | the warmup count is the number of candles earlier than all gate rows, or before time zero without any |
| `CandleTrace.NothingToJoin` | tools/build_signal_aware_candle_trace.py:99-105 | without gate rows every candle is missing and the warmup count is the number of negative times |
| `CandleTrace.BuysAreReadyRows` | tools/build_signal_aware_candle_trace.py:106-115 | with distinct candle times the buys are exactly the ready rows that have a candle |
| `CandleTrace.AvailableMeans` | tools/build_signal_aware_candle_trace.py:132-145 | an available trace has a signal; a reconciled one has exactly the expected number, and is available exactly if that is not zero |
| `CandleTrace.AvailableIff` | tools/build_signal_aware_candle_trace.py:132-145 | an available trace is reconciled except exactly for an empty baseline and buys other than none and the default total |
| `CandleTrace.AvailableUnreconciled` | tools/build_signal_aware_candle_trace.py:132-145 | one candle on one ready row, with an empty baseline, is available and not reconciled |

## Left out

- The commit-status branch of `cmd_publish` and its status writer: the older path, which depends on remote timestamps.
- Concurrent publishers, and POSTs that land after the readback: the code has no lock for them, so they are assumptions above.
- HTTP, tokens, `gh`, git and docker processes, YAML and JSON parsing, command lines, printing and Markdown: the outcome of each is a parameter or any value.
- The rules of the policy gate, and `resolve_repository` with its candidates: one boolean each.
- Error texts, rule numbers, how many errors a failed validation lists, and the error mark in the guard's list of blocked tasks; whether a check passes and which branch it takes is modelled.
- Lower and upper case and white space are ASCII; the source follows Unicode.
- `StageContext`, artifact hashing and report files of `run_ci`: only stage results, calls, manifest and exit code are modelled, and whether those steps raise.
- Timestamps are numbers; mixing naive and aware ones, which raises in the detector's sort, and their rendering to seconds are not modelled.
- The limitations list and lineage hashes of the chain detector, and the lane counters of a log entry beyond the effective one.
- The header-date and prose checks of the status guard, which read rendered text: their results are part of a document as given. An issue number in digits that `int` rejects, which raises, is not modelled.
- Supervisor.Reports.RunLoop: follows the loop through the cycles observed so far, so an endless run is a run that is still polling.
- Supervisor.EvaluateState: an uptime or count that is no number, and a probe that raises, are not modelled.
- CompletionGuard.CompletionGuard.ValidateAll: file-system calls that raise, as on an evidence path that is too long, are not modelled.
- Reporter.GenerateSnapshot: ids that are equal and written differently (`1` and `true`), for which the source keeps one state, and ids with a path separator; percentages are exact rationals rounded half to even, not floats.
- GapClusters.ClusterIdIsIndex: in the source the query runs on the rows of the strategy `paper` and the loop on those of `primary_breakout_v1`; the lemma compares them on the same rows.
- CandleTrace.BuildTrace: the contract's constant fields and notes are left out, and which of several errors is raised first.
- The remaining validators, probes, preflight and onboarding scripts: one-branch checks and I/O.

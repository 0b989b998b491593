# Verified models of the lotus-idea control scripts

The repository's scripts decide whether a commit was released safely, whether a migration record may be
trusted, whether issues and licenses are in order, and whether CI evidence may leave the pipeline.  This
project models their decision procedures in Dafny and proves what those decisions promise.

* **Dispatch** (`DispatchRemote`, `DispatchRun`, `DispatchTheorems`, `DispatchTranscript`, `Dispatcher`,
  `DispatchEvent`): one run checks a merged pull request and then, revision by revision, reads, creates or
  re-reads a tag on a shared remote and starts a workflow on it.  A schedule decides, for each call, which tags
  other actors create just before it and whether the call fails before or after it takes effect; a crash is the
  failure of the call that was being made.  The class `GitHubClient` and the loop over it are proved equal to
  functions of the remote and the schedule, and the theorems are about those functions, for every schedule:
  what runs and tags they leave, what each fault does, and why each call is made.
* **Gate coverage audit** (`AuditVerdict`, `AuditListing`, `AuditFinality`, `AuditReport`): the newest terminal
  runs decide a revision, and a truncated bulk listing with a bounded re-check is proved to give the coverage
  of the complete history, or to say unknown, and its outcome exactly when no tie is cut.
* **Migration evidence** (`DecimalText`, `MigrationEvidence`, `MigrationReplay`): accepted records are exactly
  the steps of a schema level, logs of them replay, and rollback is the dual of apply.
* **Issue posture** (`IssueLabels`, `IssueSnapshots`, `BlockerActionability`, `IssuePosture`, `IssueGate`,
  `PostureContents`, `IssueLifecycle`): what the producer builds says what its payloads say and conserves
  their issues, so the gate's count errors cannot occur on it, and the gate passes exactly for issues with one
  governed status label.
* **Workflow text** (`LineText`, `RunBlocks`, `RunKeys`, `JobBlocks`, `JobTimeouts`, `JobHeaders`): index loops over
  lines yield the one block decomposition there is, and what is then demanded of the blocks is demanded of the
  lines.  For shell blocks this is compared with the text of all run keys, for timeouts with all job headers.
* **License policy** (`PackageNames`, `LicensePolicy`, `LicenseValidation`): every error has its meaning, a
  clean validation gives a bijection of inventory and locks, and errors only grow with time.  Names are
  normalised as in PEP 503, section "Normalized Names".
* **CI evidence** (`CiTiming`, `MarkerSearch`, `CiEvidence`, `CiArtifact`), **container smoke** (`ContainerSmoke`)
  and the **monetary float guard** (`SyntaxTree`, `MonetaryFloat`).

`Common`, `Sorting` and `TextOrder` hold what several of them share.  `dafny verify dfyconfig.toml` checks the
whole project.

Where the code and its documentation or purpose part, the model follows the code:

* An apply record without versions is accepted at any three-digit version, governed or not
  (`MigrationReplay.EmptyApplyNamesAnyVersion`); `GovernedExactly` says which records stay on governed levels.
* When run ids are missing they read as 0, so two runs can have the same key and a limit can cut between them
  (`AuditFinality.TiedRunsAreMisread`).  `CutVerdictExactly` says when a given cut changes nothing, and
  `SettledExactly` and `WhollySettledExactly` when a listed outcome, or all of it, is right whatever was cut off.
* A repeated job name hides the earlier job from the timeout check (`JobHeaders.HidingPasses`);
  `EveryHeaderExactly` says for which headers the check covers them all.
* The shell-block rule looks only under a run key that stands alone with a bare block mark
  (`RunKeys.RunKeyOpensExactly`), so a step that opens with its run key is passed over (`DashedStepEscapes`).
  `AlwaysCaughtExactly` says which keys the rule guards, and `SeenExactly` which lines of any file it looks at.
* Exceptions are validated by canonical component name but honoured by the text as it is written
  (`LicensePolicy.SpellingIsNotHonoured`, and exactly when in `HonouredExactly`).
* A component without a license token, such as one without a license, is never rejected for its license
  (`LicensePolicy.UnlicensedValidates`); `CheckedExactly` says that any other can be.
* The posture producer takes JSON `true` and `false` for issue numbers and an empty repository name; its gate
  raises on both, and on nothing else (`IssueGate.BooleanNumberStopsGate`, `NamelessRepositoryStopsGate`,
  `LivePostureErrors`).
* The posture gate and the lifecycle audit do not govern the same labels (`IssueLifecycle.AuditAloneIsContent`,
  `GateAloneIsContent`); `AuditAgainstGate` says when they agree.
* Without an audit the summary of live issues can raise (`IssueLifecycle.UnauditedMayRaise`) or depend on the
  order of labels (`TwoLabelsAreAmbiguous`); it does neither exactly on sound issues (`AuditMakesStatusTotal`).

## Model

| member | source | states |
|---|---|---|
| `Dispatcher.DispatchRevision` | scripts/main_releasability_dispatch.py:179-192 | one turn of the loop, with its exceptions and its re-read after 422, is the step that the theorems are about |
| `Dispatcher.CheckOnMain` | scripts/main_releasability_dispatch.py:173-177 | the ancestry loop stops at the first revision that is not on main or cannot be checked |
| `Dispatcher.DispatchMergedPullRequest` | scripts/main_releasability_dispatch.py:151-193 | the whole run refines its specification; no tag moves, runs are only appended, each on its own revision's tag; its faults decide its end as in `FaultsDecide`; and a return has dispatched every revision once in order |
| `DispatchTheorems.DispatchOneIsExact` | scripts/main_releasability_dispatch.py:179-192 | a dispatch that reaches the remote finds the revision's own tag, whoever created it, also on the 422 path; at most one run is added |
| `DispatchTheorems.EveryRunIsExact` | scripts/main_releasability_dispatch.py:179-192 | safety over every schedule: each added run started on the tree it was dispatched for, under its own tag, which still points there |
| `DispatchTheorems.PreflightIsAllOrNothing` | scripts/main_releasability_dispatch.py:158-177 | the preflight passes exactly the admissible inputs, and leaves tags and runs to the other actors either way |
| `DispatchTheorems.PreflightRaisesFirst` | scripts/main_releasability_dispatch.py:158-177 | a preflight that can read the policy raises the first thing that is wrong: merge methods, history, count, anchor, ids, ancestry |
| `DispatchTheorems.AncestryExact` | scripts/main_releasability_dispatch.py:173-177 | the ancestry check passes exactly when every revision is on main |
| `DispatchRun.DuplicatesExact` | scripts/main_releasability_dispatch.py:168-171 | the set of revisions differs in size from their list exactly when one is repeated |
| `DispatchTheorems.DispatchAllProgress` | scripts/main_releasability_dispatch.py:179-193 | however a pass ends, it has dispatched exactly a prefix of the revisions in order, all on success; unrelated tags are untouched |
| `DispatchTheorems.RunProgress` | scripts/main_releasability_dispatch.py:151-193 | the same for a whole run, which dispatches nothing when its preflight fails |
| `DispatchTranscript.FaultsDecide` | scripts/main_releasability_dispatch.py:151-193 | over every schedule each call but the last is healthy, or failed with HTTP 404 on a read or 422 on a create; the run raises the error of a last call that failed otherwise, and is refused only by a tag that is not its revision's own; its runs are those of the starts that reached the remote |
| `DispatchTranscript.OtherFaultsRaise` | scripts/main_releasability_dispatch.py:183-192 | any other fault ends the run with that very error, and nothing is started after it |
| `DispatchTranscript.CallsAreJustified` | scripts/main_releasability_dispatch.py:179-192 | every call is made because of the answer before it: a create after a read that found no tag, a second read after a create answered by HTTP 422, a start after the tag was found or made at its own revision |
| `DispatchTheorems.CompletesIffUncontested` | scripts/main_releasability_dispatch.py:179-193 | without faults a pass completes if and only if no tag of its revisions points elsewhere |
| `DispatchTheorems.FaultFreeRunCompletes` | scripts/main_releasability_dispatch.py:151-193 | a run without faults and without contested tags returns all revisions, dispatched once each in order |
| `DispatchTheorems.RerunRecovers` | scripts/main_releasability_dispatch.py:151-193 | after a crash at any call a rerun completes, dispatches every revision, and leaves each of its tags as one undisturbed run would |
| `DispatchTheorems.ExactRunsOnce` | scripts/main_releasability_dispatch.py:168-193 | in one complete pass each revision is dispatched exactly once |
| `DispatchRemote.RefsAreInjective` | scripts/main_releasability_dispatch.py:180 | two revisions never share a dispatch tag |
| `DispatchRemote.ReadAnswers` | scripts/main_releasability_dispatch.py:74-89 | a read answers with the tag's own full commit id, with an absent tag exactly when there is none or for HTTP 404, or with its error |
| `DispatchTheorems.ParentsFirst` | scripts/main_releasability_dispatch.py:232-242 | in a linear history revisions come out parents first, distinct, ending at the merge commit |
| `DispatchEvent.MergedPullRequestFromEvent` | scripts/main_releasability_dispatch.py:196-229 | an event is accepted exactly when it is a merge into main with a full commit id, positive counts and a repository name, and is read as what it carries; a refusal names the first fault |
| `DispatchEvent.LinearHistoryIsAdmissible` | scripts/main_releasability_dispatch.py:232-242 | the revisions enumerated from a long enough linear history on main pass the preflight |
| `AuditVerdict.NotAfterIsOrder` | scripts/audit_main_gate_coverage.py:69-71 | pairs of creation text and run id are totally ordered |
| `AuditVerdict.NotAfterExactly` | scripts/audit_main_gate_coverage.py:69-71 | a run is older when its creation text has the smaller character where the texts first differ, or for equal texts a smaller id |
| `TextOrder.LessExactly` | scripts/audit_main_gate_coverage.py:69-71 | the order of texts is decided where they first differ |
| `AuditVerdict.SortRunsSorts` | scripts/audit_main_gate_coverage.py:201 | sorting by that key orders the runs and keeps them all |
| `AuditVerdict.LatestTerminalExact` | scripts/audit_main_gate_coverage.py:201-205 | the runs that decide are exactly the terminal runs that no terminal run is after |
| `AuditVerdict.ClassifyExact` | scripts/audit_main_gate_coverage.py:196-218 | success exactly when all latest terminal runs are successes; each coverage and note exactly under its condition |
| `AuditVerdict.NewestDecide` | scripts/audit_main_gate_coverage.py:196-218 | for any history the newest terminal runs, by creation text and id, decide the outcome and each note |
| `AuditVerdict.TheNewestDecides` | scripts/audit_main_gate_coverage.py:201-213 | one terminal run that all others are older than decides alone |
| `AuditVerdict.NotesInOrder` | scripts/audit_main_gate_coverage.py:199-218 | the two notes of a verdict come in one order, and an unreadable history is unknown with its note |
| `AuditVerdict.OrderIndependent` | scripts/audit_main_gate_coverage.py:196-218 | permuting or repeating runs changes nothing |
| `AuditVerdict.OnlyTheLatestVerdictsDecide` | scripts/audit_main_gate_coverage.py:196-218 | runs without a verdict, and verdicts strictly older than all others, never change a verdict |
| `AuditListing.FastPathRefinesFullHistory` | scripts/audit_main_gate_coverage.py:277-286 | for newest-first histories, with or without run ids, outcome and notes are those of the complete history if and only if no left-out run ties with the deciding ones and says something else |
| `AuditListing.RecheckRefines` | scripts/audit_main_gate_coverage.py:179-193 | for a newest-first history a bounded re-check that decides gives the outcome and notes of the complete history if and only if no left-out run ties with the deciding ones and says something else |
| `AuditListing.FastPathCoverage` | scripts/audit_main_gate_coverage.py:277-286 | for runs in any order, any limits and any revision the coverage is that of the complete history, or unknown exactly when a read failed or its limit hid every verdict |
| `AuditListing.RecheckCoverage` | scripts/audit_main_gate_coverage.py:179-193 | for a history in any order the coverage of the bounded re-check alone is that of the complete history, or unknown exactly when the limit hid every verdict |
| `AuditListing.CutVerdictExactly` | scripts/audit_main_gate_coverage.py:196-218 | cutting off runs that are not newer keeps a verdict if and only if the tied ones among them agree |
| `AuditListing.DistinctIdsNeverTie` | scripts/audit_main_gate_coverage.py:153-176 | with distinct run ids a newest-first listing never cuts between tied runs |
| `AuditFinality.TiedRunsAreMisread` | scripts/audit_main_gate_coverage.py:133-139 | two runs without ids from the same second, cut between them, read as a success that is a failure |
| `AuditListing.DeclaredGapsAreReal` | scripts/audit_main_gate_coverage.py:179-218 | for runs in any order, ungated means no run at all, unverifiable means runs without any verdict |
| `AuditFinality.SettledExactly` | scripts/audit_main_gate_coverage.py:133-139 | without distinct run ids a listed outcome is final for every continuation if and only if it is a failure or the listing goes past the verdict's key |
| `AuditFinality.WhollySettledExactly` | scripts/audit_main_gate_coverage.py:196-218 | the whole listed classification, notes included, is final for every continuation if and only if the listing goes past the verdict's key or both notes are there already |
| `AuditReport.ListWorkflowRuns` | scripts/audit_main_gate_coverage.py:153-176 | the grouping holds exactly each named revision's runs in listing order, with the truncation flag |
| `AuditReport.AuditRevisions` | scripts/audit_main_gate_coverage.py:289-312 | one verdict per commit, in order, from the listing or from the re-check |
| `AuditReport.SummaryConserves` | scripts/audit_main_gate_coverage.py:379-387 | the four coverages add up to the audited revisions, passing and failing to the verdicts |
| `AuditReport.SummaryCounts` | scripts/audit_main_gate_coverage.py:379-387 | each of the seven counts is the number of verdicts with its coverage or outcome |
| `AuditReport.RunAudit` | scripts/audit_main_gate_coverage.py:334-415 | with --fail-on-gap a non-empty audit exits 0 exactly when every revision has a verdict; each coverage, outcome and note is that of the complete history behind its own read, under the conditions above; the run states are those of the runs read, oldest first; each count is that of its verdicts |
| `DecimalText.FormatThenParse` | scripts/deployment_migration_evidence_gate.py:183-189 | reading a formatted version gives the number back; exactly the numbers up to 999 take three digits |
| `DecimalText.ParseThenFormat` | scripts/deployment_migration_evidence_gate.py:183-189 | formatting what a three-digit version reads as gives the text back |
| `DecimalText.FormatKeepsOrder` | scripts/deployment_migration_evidence_gate.py:183-184 | text order of versions is number order |
| `MigrationEvidence.GovernedExact` | scripts/deployment_migration_evidence_gate.py:126 | a three-digit text is governed exactly when its number is between 1 and the migration count |
| `MigrationEvidence.ContiguousExact` | scripts/deployment_migration_evidence_gate.py:183-184 | equality with the range between its own ends is being a run of consecutive versions |
| `MigrationEvidence.VersionList` | scripts/deployment_migration_evidence_gate.py:162-171 | each of the three list errors exactly under its condition; the texts are passed on all the same |
| `MigrationEvidence.CheckApply` | scripts/deployment_migration_evidence_gate.py:134-142 | passes exactly the climbs from previous to current; each error and the exception exactly under its condition |
| `MigrationEvidence.CheckRollback` | scripts/deployment_migration_evidence_gate.py:143-152 | passes exactly the lists that climb from current to previous when read backwards |
| `MigrationEvidence.AcceptedExact` | scripts/deployment_migration_evidence_gate.py:113-159 | the field checks and the branch of the operation together are the moves, the empty apply and the adoption |
| `MigrationEvidence.ValidateOperation` | scripts/deployment_migration_evidence_gate.py:113-159 | no error exactly for contiguous moves between governed levels, for an empty apply that stays where it is, and for adopting the whole set; every error has its meaning |
| `MigrationReplay.StepReplays` | scripts/deployment_migration_evidence_gate.py:134-159 | an accepted record from a governed level leads to one, by as many levels as it lists |
| `MigrationReplay.LogReplays` | scripts/deployment_migration_evidence_gate.py:113-159 | a chained log of accepted records stays on governed levels and ends at start + applied + adopted - rolled back |
| `MigrationReplay.EmptyApplyNamesAnyVersion` | scripts/deployment_migration_evidence_gate.py:139-142 | an apply record without versions is accepted at an ungoverned version |
| `MigrationReplay.GovernedExactly` | scripts/deployment_migration_evidence_gate.py:134-159 | an accepted record stays on governed levels if and only if it moves or starts on one |
| `MigrationReplay.UndoIsDual` | scripts/deployment_migration_evidence_gate.py:134-152 | a move and its reversal are accepted together, reversal is its own inverse, and the two restore the level |
| `MigrationReplay.PredecessorInverts` | scripts/deployment_migration_evidence_gate.py:187-189 | the predecessor inverts the successor above 001 and is null at 001 |
| `IssueLabels.StatusLabelsExact` | scripts/cross_repo_issue_posture.py:50-52 | the status labels are exactly the labels with either prefix, each once |
| `IssueLabels.StatusKeyShows` | scripts/cross_repo_issue_posture.py:50-52 | the status text is the status labels, each once and in text order, joined by commas, or says that there is none |
| `IssueLabels.JoinThenSplit` | scripts/cross_repo_issue_posture.py:364-367 | labels without a comma come back from the joined text |
| `IssueLabels.SplitJoinsBack` | scripts/issue_posture_live_gate.py:121-147 | splitting a status at commas loses nothing |
| `IssueLabels.StatusKeyIsGovernedExactly` | scripts/cross_repo_issue_posture.py:364-367 | despite join and split the gate reads one governed label exactly when the issue's status labels are that one label |
| `IssueSnapshots.ParseIssues` | scripts/cross_repo_issue_posture.py:258-289 | a list is read exactly when every entry is well formed, entry by entry |
| `IssueSnapshots.WellFormedExactly` | scripts/cross_repo_issue_posture.py:258-307 | an entry is well formed exactly when some issue says, field by field, what it says, and then one only |
| `IssueSnapshots.FirstMalformed` | scripts/cross_repo_issue_posture.py:258-289 | the error names the first entry that is not well formed |
| `IssuePosture.SummaryConserves` | scripts/cross_repo_issue_posture.py:309-326 | open and closed add up to the total, and statuses and projections to the open issues |
| `IssuePosture.AggregateCounts` | scripts/cross_repo_issue_posture.py:340-356 | the aggregate is the sum of its repositories and conserves issues and statuses |
| `IssuePosture.ReadRepository` | scripts/cross_repo_issue_posture.py:242-255 | a repository is read exactly when its three lists are there and well formed; a missing one is told apart from a malformed entry |
| `IssuePosture.SummarizeRepositories` | scripts/cross_repo_issue_posture.py:75-104 | the loop ends with one summary per repository, all issues in order and the total of open issues |
| `IssuePosture.BuildPosture` | scripts/cross_repo_issue_posture.py:63-141 | exactly the readable payloads with exactly classified blockers are accepted; the posture conserves issues everywhere |
| `PostureContents.PostureSays` | scripts/cross_repo_issue_posture.py:63-141 | of each repository the posture counts the open issues, and the open and closed RFC issues, of its payload; it lists the open ones in order with number, title, url, time and status labels of their own entries; and the total is the sum over the payloads |
| `IssueGate.RepositoryLifecycleErrors` | scripts/issue_posture_live_gate.py:121-147 | the errors are exactly the projected issues without one governed label |
| `IssueGate.OpenIssueLifecycleErrors` | scripts/issue_posture_live_gate.py:93-118 | the errors are exactly the projected-count error, when projections and aggregate differ, and the errors of the single issues |
| `IssueGate.PostureErrors` | scripts/issue_posture_live_gate.py:47-66 | every error of the gate exactly under its condition; none exactly when all counts agree, no blocker is actionable by the app and every issue is governed |
| `IssueGate.LivePostureErrors` | scripts/issue_posture_live_gate.py:33-44 | on anything the producer accepts no count error can occur; the gate passes exactly when every open issue has one governed status label, and raises exactly on boolean numbers and nameless repositories |
| `IssueGate.BooleanNumberStopsGate` | scripts/cross_repo_issue_posture.py:262-289 | a payload with a boolean issue number that the producer accepts and the gate raises on |
| `IssueGate.NamelessRepositoryStopsGate` | scripts/cross_repo_issue_posture.py:75-104 | a payload under an empty repository name that the producer accepts and the gate raises on |
| `BlockerActionability.LoadClassifications` | scripts/cross_repo_blocker_actionability.py:19-40 | accepted exactly when every entry is valid and no issue is classified twice; then the map is the entries; otherwise the error names the first bad entry |
| `BlockerActionability.RequireComplete` | scripts/cross_repo_blocker_actionability.py:165-197 | passes exactly when every open blocked issue is classified and every classification in scope is one of them |
| `BlockerActionability.CountViews` | scripts/cross_repo_blocker_actionability.py:60-79 | the projections carry what each issue's own classification says, and the counters are those of their actionability and class |
| `BlockerActionability.BlockedActionability` | scripts/cross_repo_blocker_actionability.py:43-90 | accepted exactly when the classified keys in scope are the keys of open issues with the blocked label; all three views have one entry per such issue, by repository and number |
| `IssueLifecycle.AuditLiveLifecycle` | scripts/github_issue_execution_state_audit.py:260-289 | the errors are exactly the faults of issues under the RFC; none exactly when all are sound |
| `IssueLifecycle.AuditMakesStatusTotal` | scripts/github_issue_execution_summary.py:154-158 | an open issue is sound if and only if its execution status can never raise and does not depend on which label comes first; a closed issue always has one |
| `IssueLifecycle.UnauditedMayRaise` | scripts/github_issue_execution_summary.py:154-158 | open issues without an audit whose status raises |
| `IssueLifecycle.TwoLabelsAreAmbiguous` | scripts/github_issue_execution_summary.py:154-158 | an open issue with two known labels never raises, and has two possible statuses |
| `IssueLifecycle.ExecutionStatus` | scripts/github_issue_execution_summary.py:154-158 | on an audited issue the status does not depend on the order of labels |
| `IssueLifecycle.LiveIssuesByStatus` | scripts/github_issue_execution_summary.py:122-140 | the groups partition the issues, and the counts are their sizes and add up |
| `IssueLifecycle.AuditAgainstGate` | scripts/github_issue_execution_state_audit.py:34-46 | on an open issue audit and posture gate agree if and only if it is neither sound with an extra `status:` label nor marked only as merged to main |
| `IssueLifecycle.AuditAloneIsContent` | scripts/github_issue_execution_state_audit.py:260-289 | an issue that the audit finds sound and the gate refuses |
| `IssueLifecycle.GateAloneIsContent` | scripts/issue_posture_live_gate.py:19-30 | an issue that the gate passes and the audit faults |
| `LineText.ContainsJoined` | scripts/deployment_migration_contract_gate.py:265-271 | a fragment is in the joined block exactly when it is in one of its lines |
| `LineText.ContainsExact` | scripts/deployment_migration_contract_gate.py:265-271 | containing a fragment is being a concatenation around it |
| `RunBlocks.RunHeaderExact` | scripts/deployment_migration_contract_gate.py:301 | what a header line is, as a concatenation |
| `RunBlocks.EveryHeaderIsCovered` | scripts/deployment_migration_contract_gate.py:296-315 | every header that is not inside an earlier block opens one |
| `RunBlocks.DecompositionIsUnique` | scripts/deployment_migration_contract_gate.py:296-315 | there is one decomposition of a file into run blocks |
| `RunBlocks.CollectBlock` | scripts/deployment_migration_contract_gate.py:305-313 | a block ends at the first non-blank line indented no deeper than its header, or at the end of the file |
| `RunBlocks.WorkflowRunBlocks` | scripts/deployment_migration_contract_gate.py:296-315 | the nested loops end and yield that decomposition, in order |
| `RunBlocks.ShellBlockError` | scripts/deployment_migration_contract_gate.py:265-271 | the error is raised exactly when a line inside some run block mentions inputs or secrets: when a run header stands above it with only blank and deeper lines from there on |
| `RunKeys.KeyOfExact` | scripts/deployment_migration_contract_gate.py:301 | a run key read from a line is the one whose writing the line is |
| `RunKeys.RunKeyOpensExactly` | scripts/deployment_migration_contract_gate.py:301 | of all ways to write a run key, only the undashed one with a bare block mark opens a block |
| `RunKeys.SeenExactly` | scripts/deployment_migration_contract_gate.py:296-315 | for any file a line of a step's run text is looked at exactly when its key opens a block above it, or its text reads as such a key there |
| `RunKeys.RuleOverRunText` | scripts/deployment_migration_contract_gate.py:265-271 | for any file, inline text included, the error is raised exactly when some run text mentions inputs or secrets at a line that is looked at |
| `RunKeys.AlwaysCaughtExactly` | scripts/deployment_migration_contract_gate.py:265-271 | a mention in the text of a key raises the error in every file if and only if the key is undashed with a bare block mark |
| `RunKeys.OtherKeysEscape` | scripts/deployment_migration_contract_gate.py:296-315 | a file with no such key raises no error, whatever it mentions |
| `RunKeys.DashedStepEscapes` | scripts/deployment_migration_contract_gate.py:296-315 | a step that opens with its run key, whose mention raises no error |
| `JobBlocks.JobsLineExact` | scripts/ci_contract_gate.py:416-418 | what a `jobs:` line is, as a concatenation |
| `JobBlocks.JobNameExact` | scripts/ci_contract_gate.py:425 | what a job header line is, as a concatenation |
| `JobBlocks.TimeoutExact` | scripts/ci_contract_gate.py:401 | what a job-level timeout line is, and its value |
| `JobBlocks.AlwaysExtracted` | scripts/ci_contract_gate.py:424-431 | after any number of lines every job seen has one block, from its latest header on, in order of first headers |
| `JobBlocks.CollectEntries` | scripts/ci_contract_gate.py:424-431 | the dictionary loop holds exactly the lines of those blocks |
| `JobBlocks.FlatExact` | scripts/ci_contract_gate.py:413-432 | concatenating the blocks gives the lines from the first header on if and only if no name repeats |
| `JobBlocks.JobBlocks` | scripts/ci_contract_gate.py:413-432 | the blocks of a workflow's jobs, with both of these properties |
| `JobTimeouts.CheckBlock` | scripts/ci_contract_gate.py:400-409 | a block passes exactly when its first timeout line is in 1..60; each error exactly under its condition |
| `JobTimeouts.ValidateBody` | scripts/ci_contract_gate.py:395-410 | no error exactly when there is a job and the last header of every name is limited before the next header; each error named by the lines |
| `JobTimeouts.ValidateJobTimeouts` | scripts/ci_contract_gate.py:395-432 | the same of a whole file, from its first `jobs:` line |
| `JobHeaders.DistinctHeadersAreChecked` | scripts/ci_contract_gate.py:395-432 | without repeated names the check passes exactly when there is a job and every header is limited before the next |
| `JobHeaders.EveryHeaderExactly` | scripts/ci_contract_gate.py:424-431 | for any headers, passing means that every header is limited if and only if no name repeats, or no such workflow can pass at all |
| `JobHeaders.HidingPasses` | scripts/ci_contract_gate.py:424-431 | four lines that pass although their first job has no timeout |
| `PackageNames.CanonicalExact` | scripts/license_compliance_policy.py:358-359 | the canonical form is canonical, idempotent, and leaves exactly the canonical names alone |
| `PackageNames.CanonicalRuns` | scripts/license_compliance_policy.py:358-359 | run by run, a word without separators is put in small letters and a run of separators becomes one hyphen |
| `PackageNames.PinExact` | scripts/license_compliance_policy.py:12 | what a pinned line is, as a concatenation |
| `PackageNames.ParseLock` | scripts/license_compliance_policy.py:349-355 | a lock maps exactly the canonical names its lines pin, each to the version of its last pin |
| `LicensePolicy.TokensExact` | scripts/license_compliance_policy.py:367-368 | the license tokens are exactly those that start a run of license characters and are no operator |
| `LicensePolicy.HasActiveException` | scripts/license_compliance_policy.py:320-346 | a token is covered exactly when some entry names it, is fully approved, reasoned, evidenced and not expired |
| `LicensePolicy.ErrorsPersist` | scripts/license_compliance_policy.py:227-346 | every error of an earlier day is an error of a later day, so acceptance on a day is acceptance on every day before |
| `LicensePolicy.ValidatedInventory` | scripts/license_compliance_policy.py:189-224 | acceptance makes inventory and locks a bijection with equal versions |
| `LicensePolicy.ValidatedLicenses` | scripts/license_compliance_policy.py:278-301 | acceptance makes every token permitted or covered by an honoured exception, and conditional ones carry obligations |
| `LicensePolicy.CheckedExactly` | scripts/license_compliance_policy.py:290-298 | some policy rejects a license of a component if and only if its expression has a token |
| `LicensePolicy.UnlicensedValidates` | scripts/license_compliance_policy.py:278-301 | a locked component without any license validates under a policy that approves none |
| `LicensePolicy.HonouredExactly` | scripts/license_compliance_policy.py:320-346 | a validated exception is honoured for its component if and only if it spells the name canonically |
| `LicensePolicy.SpellingIsNotHonoured` | scripts/license_compliance_policy.py:320-346 | a policy whose exceptions all validate, and whose one exception is not honoured: its component is rejected |
| `LicenseValidation.CheckComponent` | scripts/license_compliance_policy.py:278-301 | a component's errors are exactly its faults |
| `LicenseValidation.CompareLocks` | scripts/license_compliance_policy.py:211-223 | the lock errors are exactly the missing, drifting and unlocked keys |
| `LicenseValidation.ValidateComponents` | scripts/license_compliance_policy.py:189-224 | every component error means what it says and none is missing |
| `LicenseValidation.ComponentLicenses` | scripts/license_compliance_policy.py:233-239 | the license dictionary holds the tokens of the last component of each canonical name |
| `LicenseValidation.CheckException` | scripts/license_compliance_policy.py:247-274 | an exception's errors are exactly its faults |
| `LicenseValidation.ValidateExceptions` | scripts/license_compliance_policy.py:227-275 | every exception error means what it says and none is missing |
| `LicenseValidation.ValidateLicenses` | scripts/license_compliance_policy.py:24-45 | inventory and exceptions are accepted exactly when neither has an error |
| `CiTiming.RoundIsNearest` | scripts/ci_signal_evidence.py:220-225 | rounding goes to the nearest second, and to the even one in the middle |
| `CiTiming.RoundIsMonotone` | scripts/ci_signal_evidence.py:220-225 | longer spans never round to fewer seconds |
| `CiTiming.WorkflowTimeWindow` | scripts/ci_signal_evidence.py:228-239 | no job outlasts the wall clock, which differs from the reported timestamps by at most a second |
| `CiTiming.LongestJob` | scripts/ci_signal_evidence.py:60 | the first of the completed jobs that take the longest |
| `CiTiming.Summarize` | scripts/ci_signal_evidence.py:58-63 | the longest job never exceeds the wall clock |
| `MarkerSearch.CleanExactly` | scripts/ci_signal_evidence.py:254-270 | a tree is clean exactly when no path leads to a marked key or text |
| `MarkerSearch.MarkerExact` | scripts/ci_signal_evidence.py:254-270 | a text has a marker exactly when one stands in it in any capitalisation, letter by letter |
| `MarkerSearch.FindForbiddenMarkers` | scripts/ci_signal_evidence.py:254-270 | the findings are exactly the marked places, at any depth |
| `CiEvidence.ValidateEvidence` | scripts/ci_signal_evidence.py:105-160 | no error exactly for a well-shaped clean artifact; each error about the shape exactly under its condition; one error naming every marked place exactly when there is one |
| `CiEvidence.FailureCategories` | scripts/ci_signal_evidence.py:64-68 | the categories of failed and cancelled jobs, each once and in order |
| `CiEvidence.CategoriesCoverFailures` | scripts/ci_signal_evidence.py:197-217 | no category is reported exactly when no job failed or was cancelled |
| `CiEvidence.Values` | scripts/ci_signal_evidence.py:58-98 | the summary counts its jobs, and reports their window and the longest of them |
| `CiEvidence.BuildEvidence` | scripts/ci_signal_evidence.py:46-102 | a built artifact is released exactly when it is clean, and otherwise every marked place is named; no other error is reachable |
| `CiArtifact.ArtifactCarries` | scripts/ci_signal_evidence.py:46-102 | key by key the artifact says what its origin and its jobs say: every field of each job, the counts by conclusion, the window, the longest job and the categories |
| `CiArtifact.CategoryExact` | scripts/ci_signal_evidence.py:197-217 | a job's category is that of its conclusion, or of the first rule whose fragment stands in its name, whatever the case and with hyphens and underscores as blanks |
| `ContainerSmoke.ProbeAll` | scripts/container_runtime_smoke.py:45-72 | an attempt passes, fails or is interrupted, each exactly when its probes in order and the release identity say so |
| `ContainerSmoke.AttemptFits` | scripts/container_runtime_smoke.py:107-116 | an attempt that starts in time is within floor(timeout / pace) + 1, the pace being the least advance of the clock in one sleep |
| `ContainerSmoke.IntervalBounds` | scripts/container_runtime_smoke.py:107-116 | with a positive interval that is at most floor(timeout / interval) + 1 |
| `ContainerSmoke.ProbeUntilDeadline` | scripts/container_runtime_smoke.py:107-116 | for any interval the loop ends within that bound and as the answers, the clock and the interrupts say: with the attempt that passes in time, past the deadline with every attempt before it failed, or interrupted; and at the call number that this takes |
| `ContainerSmoke.OneEnding` | scripts/container_runtime_smoke.py:107-116 | which ending it is, and after how many attempts, is determined by them |
| `ContainerSmoke.RunContainerSmoke` | scripts/container_runtime_smoke.py:75-133 | wherever any call is interrupted, the last command is a removal, which leaves no container when Docker carries it out; the exit is that of the body unless the removal is interrupted |
| `ContainerSmoke.ReturnsExactly` | scripts/container_runtime_smoke.py:104-133 | a run returns exactly when the container starts and some attempt that is made in time passes: the first one that does |
| `ContainerSmoke.HealthyIsReturned` | scripts/container_runtime_smoke.py:104-133 | without interrupts a container reachable from some attempt on is returned if that attempt is in time, and reported as unreachable otherwise |
| `SyntaxTree.WalkStep` | scripts/check_monetary_float_usage.py:73-78 | each step of the walk keeps its queue one of children of visited nodes, in which unshared nodes are new and come up once |
| `SyntaxTree.ParentMap` | scripts/check_monetary_float_usage.py:73-78 | the walk ends, reaches every node and maps each child to the last of its parents walked: the only one, unless the child is a shared leaf |
| `SyntaxTree.SharedContextIsTree` | scripts/check_monetary_float_usage.py:73-78 | a call whose arguments share their context node is among the trees |
| `SyntaxTree.EnclosingFunctionName` | scripts/check_monetary_float_usage.py:81-87 | the climb ends, with the name of the closest function or the empty text |
| `SyntaxTree.EnclosingNameIsUnique` | scripts/check_monetary_float_usage.py:81-87 | a node that is not a shared leaf has one closest function name |
| `MonetaryFloat.FloatCallViolations` | scripts/check_monetary_float_usage.py:90-173 | at any depth a bare float call is reported exactly when a monetary word stands, in any capitalisation, in the line with its number or in the name of its closest function |

## Left out

- `gh`, `git`, Docker, HTTP and files: their answers are parameters, schedules and oracles; a Docker removal that fails leaves the container running, and any call on the host may be interrupted by an exception.
- Regular expressions: each pattern in use is a predicate over characters and lines, with ASCII letters, digits and case, and space and tab as the only white space inside a line.
- What belongs to a run key is read off the indentation; keys in quotes, with a blank before the colon or behind two dashes, and flow collections, are no run keys of the model.
- A timeout line is one line: the pattern's white space could also run over a line break.
- `int` on text that is no unsigned decimal is the exception that rejects the record; signs, spaces and underscores that `int` also reads are not told apart, because such texts are refused as versions anyway.
- Timestamps and dates are numbers; the functions that parse and format them are arbitrary, and text that they would refuse is not part of this model.
- Error and status texts are datatype values, and the order of errors is not stated.
- A place in a JSON tree is a sequence of keys and indices, not the text `$.a[0]`; the order of findings is that of the code for lists and left open for objects.
- The steps of a CI job come already built, and jobs that are no objects are not modelled.
- The audit reads run records as evidence already: how missing ids and attempts are defaulted, and how a commit line is split, is left out.
- The bulk listing and each re-check are one snapshot of a list of runs; a list that changes while it is being read is not modelled.
- JSON `true` and 1 are told apart where the CI evidence compares values, which Python does not do.
- Syntax trees come with their levels; that the parser shares only nodes without children that are neither functions nor calls is an assumption on it.
- Of the posture, title-only references, attention lists, and priority and slice labels.
- The rest of the migration evidence gate: release identity, posture, timestamps and sensitive keys.
- The rest of the license policy: header, notice, hashes of lock files and release evidence.
- The rest of the monetary guard: annotations, assignments and literals.
- Gates over fixed constants and fragments, the endpoint tables, rendering and argument parsing: equality and substring checks with easy claims only.

/** The CI signal artifact: built from the jobs of a run, then validated before it is released. */
module CiEvidence {
  import opened Common
  import opened CiTiming
  import opened LineText
  import opened Sorting
  import TextOrder
  import opened MarkerSearch

  const SCHEMA_VERSION := "lotus-idea.ci-signal-evidence.v1"
  const WALL_CLOCK := "workflow_wall_clock"

  const REQUIRED_FIELDS: set<string> := {
    "schemaVersion", "repository", "commitSha", "ref", "workflow", "runId", "runAttempt", "generatedAtUtc", "source",
    "thresholdEnforced", "jobs", "summary"
  }

  const REQUIRED_SUMMARY: set<string> := {
    "jobCount", "completedJobCount", "failedJobCount", "cancelledJobCount", "workflowStartedAtUtc",
    "workflowCompletedAtUtc", "workflowWallClockSeconds", "criticalPathBasis", "criticalPathJobName",
    "criticalPathSeconds", "longestJobName", "longestJobSeconds", "failureCategories", "cacheEvidence"
  }

  datatype Error =
    | MissingFields | WrongSchema | ThresholdMustBeOff | JobsMustBeList | SummaryMustBeObject
    | MissingSummaryFields | WrongBasis | WrongSeconds | ForbiddenMarkers(paths: seq<Path>)

  // A text field is None when it is missing, empty or no text; steps come already built.
  datatype RawJob = RawJob(
    name: Option<string>, status: Option<string>, conclusion: Option<string>, startedAt: Option<string>,
    completedAt: Option<string>, runnerName: Option<string>, labels: seq<string>, steps: seq<Json>)

  datatype Origin = Origin(
    repository: string, commitSha: string, ref: string, workflow: string, runId: string, runAttempt: string,
    generatedAtUtc: string, source: string)

  function Field(root: Json, key: string): Option<Json> {
    if root.Object? && key in root.fields then Some(root.fields[key]) else None
  }

  function TextOrNull(text: Option<string>): Json { if text.Some? then Text(text.value) else Null }

  function TextOrUnknown(text: Option<string>): Json { Text(if text.Some? then text.value else "unknown") }

  function Times(job: RawJob, parse: string -> int): JobTimes {
    JobTimes(if job.startedAt.Some? then Some(parse(job.startedAt.value)) else None,
             if job.completedAt.Some? then Some(parse(job.completedAt.value)) else None)
  }

  // The failure category of a concluded job, by its conclusion and then by its name.
  function Category(job: RawJob): Option<string> {
    var conclusion := if job.conclusion.Some? then job.conclusion.value else "unknown";
    if conclusion in {"success", "skipped", "unknown"} then None
    else if conclusion == "cancelled" then Some("cancelled")
    else if conclusion == "timed_out" then Some("timeout")
    else Some(NameCategory(Spaced(Lowered(if job.name.Some? then job.name.value else "unknown"))))
  }

  function NameCategory(name: string): string {
    if Contains(name, "workflow lint") then "workflow_lint"
    else if Contains(name, "lint typecheck security") then "lint_typecheck_security"
    else if Contains(name, "coverage") then "coverage"
    else if Contains(name, "postgres") then "postgres_runtime"
    else if Contains(name, "docker") || Contains(name, "container") then "docker_build_or_scan"
    else if Contains(name, "test") then "test"
    else "unclassified_failure"
  }

  function Spaced(text: string): string {
    MapSeq(text, (c: char) => if c == '-' || c == '_' then ' ' else c)
  }

  function Ordered(texts: seq<string>): (sorted: seq<string>)
    ensures forall t :: t in sorted <==> t in texts
  {
    SortPermutes(texts, TextOrder.Leq);
    SortBy(texts, TextOrder.Leq)
  }

  function BuildJob(job: RawJob, parse: string -> int): Json {
    Object(map[
      "name" := TextOrUnknown(job.name), "status" := TextOrUnknown(job.status),
      "conclusion" := TextOrUnknown(job.conclusion), "failureCategory" := TextOrNull(Category(job)),
      "startedAtUtc" := TextOrNull(job.startedAt),
      "completedAtUtc" := TextOrNull(job.completedAt),
      "durationSeconds" := Number(DurationSeconds(Times(job, parse))), "runnerName" := TextOrNull(job.runnerName),
      "labels" := Array(MapSeq(Ordered(job.labels), (l: string) => Text(l))), "steps" := Array(job.steps)])
  }

  /***** Validation *****/

  // The conditions that do not look for markers.
  ghost predicate WellShaped(artifact: Json) {
    && artifact.Object? && REQUIRED_FIELDS <= artifact.fields.Keys
    && artifact.fields["schemaVersion"] == Text(SCHEMA_VERSION)
    && artifact.fields["thresholdEnforced"] == Bool(false)
    && artifact.fields["jobs"].Array?
    && artifact.fields["summary"].Object?
    && var summary := artifact.fields["summary"].fields;
       && REQUIRED_SUMMARY <= summary.Keys
       && summary["criticalPathBasis"] == Text(WALL_CLOCK)
       && summary["criticalPathSeconds"] == summary["workflowWallClockSeconds"]
  }

  // The value of a key, which reads as null when it is missing.
  function ValueOf(root: Json, key: string): Json { if Field(root, key).Some? then Field(root, key).value else Null }

  // What each error of the summary means.
  ghost predicate SummaryFault(summary: Json, e: Error)
    requires summary.Object?
  {
    match e
    case MissingSummaryFields => !(REQUIRED_SUMMARY <= summary.fields.Keys)
    case WrongBasis => ValueOf(summary, "criticalPathBasis") != Text(WALL_CLOCK)
    case WrongSeconds => ValueOf(summary, "criticalPathSeconds") != ValueOf(summary, "workflowWallClockSeconds")
    case _ => false
  }

  // What each error means that is not about markers.
  ghost predicate ShapeFault(artifact: Json, e: Error)
    requires artifact.Object?
  {
    var summary := ValueOf(artifact, "summary");
    match e
    case MissingFields => !(REQUIRED_FIELDS <= artifact.fields.Keys)
    case WrongSchema => ValueOf(artifact, "schemaVersion") != Text(SCHEMA_VERSION)
    case ThresholdMustBeOff => ValueOf(artifact, "thresholdEnforced") != Bool(false)
    case JobsMustBeList => !ValueOf(artifact, "jobs").Array?
    case SummaryMustBeObject => !summary.Object?
    case _ => summary.Object? && SummaryFault(summary, e)
  }

  // No error of either kind is one about markers.
  lemma ShapeFaultsExactly(artifact: Json)
    requires artifact.Object?
    ensures WellShaped(artifact) <==> forall e :: !ShapeFault(artifact, e)
    ensures forall paths :: !ShapeFault(artifact, ForbiddenMarkers(paths))
  {
    if forall e :: !ShapeFault(artifact, e) {
      assert !ShapeFault(artifact, MissingFields) && !ShapeFault(artifact, WrongSchema);
      assert !ShapeFault(artifact, ThresholdMustBeOff) && !ShapeFault(artifact, JobsMustBeList);
      assert !ShapeFault(artifact, SummaryMustBeObject) && !ShapeFault(artifact, MissingSummaryFields);
      assert !ShapeFault(artifact, WrongBasis) && !ShapeFault(artifact, WrongSeconds);
    }
  }

  method CheckSummary(summary: Json) returns (errors: seq<Error>)
    requires summary.Object?
    ensures forall e :: e in errors <==> SummaryFault(summary, e)
  {
    errors := [];
    if !(REQUIRED_SUMMARY <= summary.fields.Keys) { errors := errors + [MissingSummaryFields]; }
    if ValueOf(summary, "criticalPathBasis") != Text(WALL_CLOCK) { errors := errors + [WrongBasis]; }
    if ValueOf(summary, "criticalPathSeconds") != ValueOf(summary, "workflowWallClockSeconds") {
      errors := errors + [WrongSeconds];
    }
  }

  method CheckShape(artifact: Json) returns (errors: seq<Error>)
    requires artifact.Object?
    ensures forall e :: e in errors <==> ShapeFault(artifact, e)
  {
    errors := [];
    if !(REQUIRED_FIELDS <= artifact.fields.Keys) { errors := errors + [MissingFields]; }
    if ValueOf(artifact, "schemaVersion") != Text(SCHEMA_VERSION) { errors := errors + [WrongSchema]; }
    if ValueOf(artifact, "thresholdEnforced") != Bool(false) { errors := errors + [ThresholdMustBeOff]; }
    if !ValueOf(artifact, "jobs").Array? { errors := errors + [JobsMustBeList]; }
    var summary := ValueOf(artifact, "summary");
    if !summary.Object? {
      errors := errors + [SummaryMustBeObject];
    } else {
      var found := CheckSummary(summary);
      errors := errors + found;
    }
  }

  // The one error about markers, if the artifact has any.
  method CheckMarkers(artifact: Json) returns (errors: seq<Error>)
    ensures errors == [] <==> Clean(artifact)
    ensures errors != [] ==>
              |errors| == 1 && errors[0].ForbiddenMarkers? && Finds(errors[0].paths, artifact, [])
  {
    var paths := FindForbiddenMarkers(artifact, []);
    CleanExactly(artifact);
    if !Clean(artifact) {
      var path: Path :| Marked(artifact, path);
      assert [] + path in paths;
    }
    assert paths != [] ==> paths[0] in paths;
    errors := if paths != [] then [ForbiddenMarkers(paths)] else [];
  }

  /** No error exactly for a well-shaped clean artifact; each error about the shape exactly under its
      condition; and one error naming every marked place exactly when there is one. */
  method ValidateEvidence(artifact: Json) returns (errors: seq<Error>)
    requires artifact.Object?
    ensures errors == [] <==> WellShaped(artifact) && Clean(artifact)
    ensures forall e: Error :: !e.ForbiddenMarkers? ==> (e in errors <==> ShapeFault(artifact, e))
    ensures (exists e: Error :: e in errors && e.ForbiddenMarkers?) <==> !Clean(artifact)
    ensures forall e: Error :: e in errors && e.ForbiddenMarkers? ==> Finds(e.paths, artifact, [])
    ensures WellShaped(artifact) && !Clean(artifact) ==>
              |errors| == 1 && errors[0].ForbiddenMarkers? && Finds(errors[0].paths, artifact, [])
  {
    var shape := CheckShape(artifact);
    var markers := CheckMarkers(artifact);
    ShapeFaultsExactly(artifact);
    assert shape != [] ==> shape[0] in shape;
    assert shape == [] <==> WellShaped(artifact);
    errors := shape + markers;
    assert markers != [] ==> markers[0] in errors;
  }

  /***** Building *****/

  predicate Concludes(job: RawJob, conclusions: set<string>) { job.conclusion.Some? && job.conclusion.value in conclusions }

  // What the summary reports besides its constants.
  datatype SummaryValues = SummaryValues(
    jobs: nat, completed: nat, failed: nat, cancelled: nat, startedAt: Json, completedAt: Json, wallClock: int,
    longestName: Json, longestSeconds: int, categories: seq<string>)

  function BuildSummary(v: SummaryValues): Json {
    Object(map[
      "jobCount" := Number(v.jobs), "completedJobCount" := Number(v.completed), "failedJobCount" := Number(v.failed),
      "cancelledJobCount" := Number(v.cancelled), "workflowStartedAtUtc" := v.startedAt,
      "workflowCompletedAtUtc" := v.completedAt, "workflowWallClockSeconds" := Number(v.wallClock),
      "criticalPathBasis" := Text(WALL_CLOCK), "criticalPathJobName" := Null,
      "criticalPathSeconds" := Number(v.wallClock), "longestJobName" := v.longestName,
      "longestJobSeconds" := Number(v.longestSeconds),
      "failureCategories" := Array(MapSeq(v.categories, (c: string) => Text(c))),
      "cacheEvidence" := Text("not_captured_by_github_jobs_api")])
  }

  function BuildArtifact(origin: Origin, jobs: seq<Json>, summary: Json): Json {
    Object(map[
      "schemaVersion" := Text(SCHEMA_VERSION), "repository" := Text(origin.repository),
      "commitSha" := Text(origin.commitSha), "ref" := Text(origin.ref), "workflow" := Text(origin.workflow),
      "runId" := Text(origin.runId), "runAttempt" := Text(origin.runAttempt),
      "generatedAtUtc" := Text(origin.generatedAtUtc), "source" := Text(origin.source),
      "thresholdEnforced" := Bool(false), "jobs" := Array(jobs), "summary" := summary])
  }

  lemma SummaryIsShaped(v: SummaryValues)
    ensures var summary := BuildSummary(v);
            && REQUIRED_SUMMARY <= summary.fields.Keys
            && summary.fields["criticalPathBasis"] == Text(WALL_CLOCK)
            && summary.fields["criticalPathSeconds"] == summary.fields["workflowWallClockSeconds"] == Number(v.wallClock)
            && summary.fields["longestJobSeconds"] == Number(v.longestSeconds)
  {
  }

  lemma ArtifactIsShaped(origin: Origin, jobs: seq<Json>, summary: Json)
    ensures var artifact := BuildArtifact(origin, jobs, summary);
            && REQUIRED_FIELDS <= artifact.fields.Keys
            && artifact.fields["schemaVersion"] == Text(SCHEMA_VERSION)
            && artifact.fields["thresholdEnforced"] == Bool(false)
            && artifact.fields["jobs"] == Array(jobs) && artifact.fields["summary"] == summary
  {
  }

  // The category of a job that failed or was cancelled.
  function FailedCategory(job: RawJob): Option<string> {
    if IsFailed(job) || IsCancelled(job) then Category(job) else None
  }

  lemma TextOrderIsOrder()
    ensures Total(TextOrder.Leq) && Transitive(TextOrder.Leq)
  {
    forall a, b ensures TextOrder.Leq(a, b) || TextOrder.Leq(b, a) { TextOrder.LeqIsTotal(a, b); }
    forall a, b, c | TextOrder.Leq(a, b) && TextOrder.Leq(b, c) ensures TextOrder.Leq(a, c) {
      TextOrder.LeqIsTransitive(a, b, c);
    }
  }

  // The texts that are present, each once and in order.
  method Present(texts: seq<Option<string>>) returns (present: seq<string>)
    ensures forall t :: t in present <==> Some(t) in texts
    ensures multiset(present) == multiset(set t | t in present) && Sorted(present, TextOrder.Leq)
  {
    var found: seq<string> := [];
    for i := 0 to |texts|
      invariant forall t :: t in found <==> Some(t) in texts[..i]
      invariant multiset(found) == multiset(set t | t in found)
    {
      assert texts[..i + 1] == texts[..i] + [texts[i]];
      if texts[i].Some? && texts[i].value !in found {
        assert (set t | t in found + [texts[i].value]) == (set t | t in found) + {texts[i].value};
        found := found + [texts[i].value];
      }
    }
    assert texts[..|texts|] == texts;
    present := Ordered(found);
    SortPermutes(found, TextOrder.Leq);
    TextOrderIsOrder();
    SortSorts(found, TextOrder.Leq);
    assert (set t | t in present) == (set t | t in found);
  }

  predicate IsCompleted(job: RawJob) { job.completedAt.Some? }

  predicate IsFailed(job: RawJob) { Concludes(job, {"failure", "timed_out"}) }

  predicate IsCancelled(job: RawJob) { Concludes(job, {"cancelled"}) }

  // A failed or cancelled job of this category.
  ghost predicate HasCategory(job: RawJob, c: string) { (IsFailed(job) || IsCancelled(job)) && Category(job) == Some(c) }

  // They are exactly the categories of the failed and cancelled jobs.
  ghost predicate NamesCategories(categories: seq<string>, jobs: seq<RawJob>) {
    forall c :: c in categories <==> exists i :: 0 <= i < |jobs| && HasCategory(jobs[i], c)
  }

  function AllTimes(jobs: seq<RawJob>, parse: string -> int): seq<JobTimes> { MapSeq(jobs, (j: RawJob) => Times(j, parse)) }

  function FormatOrNull(time: Option<int>, format: int -> string): Json {
    if time.Some? then Text(format(time.value)) else Null
  }

  // The values report the window, the longest job, the counts and the failure categories of the jobs.
  ghost predicate Describes(v: SummaryValues, jobs: seq<RawJob>, parse: string -> int, format: int -> string) {
    && v.jobs == |jobs| && v.completed == |Places(jobs, IsCompleted)|
    && v.failed == |Places(jobs, IsFailed)| && v.cancelled == |Places(jobs, IsCancelled)|
    && ReportsTimes(v, jobs, AllTimes(jobs, parse), format)
    && NamesCategories(v.categories, jobs) && (v.categories == [] <==> v.failed == 0 && v.cancelled == 0)
    && multiset(v.categories) == multiset(set c | c in v.categories) && Sorted(v.categories, TextOrder.Leq)
  }

  ghost predicate ReportsTimes(v: SummaryValues, jobs: seq<RawJob>, times: seq<JobTimes>, format: int -> string)
    requires |times| == |jobs|
  {
    && (exists window ::
          && Spans(window, times) && IsClose(window) && v.wallClock == window.wallClock
          && v.startedAt == FormatOrNull(window.started, format) && v.completedAt == FormatOrNull(window.completed, format))
    && (exists longest: Option<nat> ::
          && IsLongest(longest, v.longestSeconds, times)
          && v.longestName == if longest.Some? then TextOrUnknown(jobs[longest.value].name) else Null)
    && 0 <= v.longestSeconds <= v.wallClock
  }

  lemma FailureIsNoSuccess(conclusion: string)
    requires conclusion in {"failure", "timed_out", "cancelled"}
    ensures conclusion !in {"success", "skipped", "unknown"}
  {
    assert conclusion[0] in {'f', 't', 'c'};
  }

  lemma FailedIsCategorised(job: RawJob)
    requires IsFailed(job) || IsCancelled(job)
    ensures exists c :: HasCategory(job, c)
  {
    FailureIsNoSuccess(job.conclusion.value);
    assert HasCategory(job, Category(job).value);
  }

  lemma SomeIsCategorised(jobs: seq<RawJob>)
    ensures (exists i, c :: 0 <= i < |jobs| && HasCategory(jobs[i], c)) <==>
            exists i :: 0 <= i < |jobs| && (IsFailed(jobs[i]) || IsCancelled(jobs[i]))
  {
    if i :| 0 <= i < |jobs| && (IsFailed(jobs[i]) || IsCancelled(jobs[i])) { FailedIsCategorised(jobs[i]); }
  }

  lemma NowhereExactly(jobs: seq<RawJob>, p: RawJob -> bool)
    ensures |Places(jobs, p)| == 0 <==> forall i :: 0 <= i < |jobs| ==> !p(jobs[i])
  {
    if i :| 0 <= i < |jobs| && p(jobs[i]) { assert i in Places(jobs, p); }
    if |Places(jobs, p)| != 0 { var i :| i in Places(jobs, p); }
  }

  /** Every job that failed or was cancelled has a category: none is reported exactly when there is no
      such job. */
  lemma CategoriesCoverFailures(categories: seq<string>, jobs: seq<RawJob>)
    requires NamesCategories(categories, jobs)
    ensures categories == [] <==> |Places(jobs, IsFailed)| == 0 && |Places(jobs, IsCancelled)| == 0
  {
    SomeIsCategorised(jobs);
    NowhereExactly(jobs, IsFailed);
    NowhereExactly(jobs, IsCancelled);
    assert categories != [] ==> categories[0] in categories;
    if i, c :| 0 <= i < |jobs| && HasCategory(jobs[i], c) { assert c in categories; }
  }

  method FailureCategories(jobs: seq<RawJob>) returns (categories: seq<string>)
    ensures NamesCategories(categories, jobs)
    ensures categories == [] <==> |Places(jobs, IsFailed)| == 0 && |Places(jobs, IsCancelled)| == 0
    ensures multiset(categories) == multiset(set c | c in categories) && Sorted(categories, TextOrder.Leq)
  {
    var named := MapSeq(jobs, FailedCategory);
    categories := Present(named);
    forall c ensures c in categories <==> exists i :: 0 <= i < |jobs| && HasCategory(jobs[i], c) {
      if c in categories {
        var i :| 0 <= i < |named| && named[i] == Some(c);
        assert FailedCategory(jobs[i]) == Some(c);
      }
      if i :| 0 <= i < |jobs| && HasCategory(jobs[i], c) {
        assert named[i] == Some(c);
      }
    }
    CategoriesCoverFailures(categories, jobs);
  }

  method CountJobs(jobs: seq<RawJob>) returns (completed: nat, failed: nat, cancelled: nat)
    ensures completed == |Places(jobs, IsCompleted)|
    ensures failed == |Places(jobs, IsFailed)| && cancelled == |Places(jobs, IsCancelled)|
  {
    FilterCounts(jobs, IsCompleted);
    FilterCounts(jobs, IsFailed);
    FilterCounts(jobs, IsCancelled);
    completed, failed, cancelled :=
      |Filter(jobs, IsCompleted)|, |Filter(jobs, IsFailed)|, |Filter(jobs, IsCancelled)|;
  }

  method Values(jobs: seq<RawJob>, parse: string -> int, format: int -> string) returns (v: SummaryValues)
    ensures Describes(v, jobs, parse, format)
  {
    var window, longest, seconds := Summarize(AllTimes(jobs, parse));
    var categories := FailureCategories(jobs);
    var completed, failed, cancelled := CountJobs(jobs);
    v := SummaryValues(
      |jobs|, completed, failed, cancelled,
      FormatOrNull(window.started, format), FormatOrNull(window.completed, format), window.wallClock,
      if longest.Some? then TextOrUnknown(jobs[longest.value].name) else Null, seconds, categories);
    ReportsSummary(v, jobs, AllTimes(jobs, parse), format, window, longest);
  }

  lemma ReportsSummary(v: SummaryValues, jobs: seq<RawJob>, times: seq<JobTimes>, format: int -> string, window: Window,
                       longest: Option<nat>)
    requires |times| == |jobs| && Spans(window, times) && IsClose(window) && IsLongest(longest, v.longestSeconds, times)
    requires v.startedAt == FormatOrNull(window.started, format) && v.completedAt == FormatOrNull(window.completed, format)
    requires v.longestName == if longest.Some? then TextOrUnknown(jobs[longest.value].name) else Null
    requires v.wallClock == window.wallClock && 0 <= v.longestSeconds <= v.wallClock
    ensures ReportsTimes(v, jobs, times, format)
  {
  }

  // The artifact carries every job and a summary that describes them.
  ghost predicate Signals(artifact: Json, origin: Origin, jobs: seq<RawJob>, parse: string -> int, format: int -> string) {
    exists v :: Describes(v, jobs, parse, format) &&
      artifact == BuildArtifact(origin, MapSeq(jobs, (j: RawJob) => BuildJob(j, parse)), BuildSummary(v))
  }

  /** Of all the errors a validation can raise only the search for markers can stop a built artifact:
      it is released exactly when it is clean, and otherwise every marked place in it is named. */
  method BuildEvidence(origin: Origin, jobs: seq<RawJob>, parse: string -> int, format: int -> string)
      returns (artifact: Json, r: Result<Json, seq<Error>>)
    ensures WellShaped(artifact)
    ensures r.Success? <==> Clean(artifact)
    ensures r.Success? ==> r.value == artifact
    ensures r.Failure? ==>
              |r.error| == 1 && r.error[0].ForbiddenMarkers? && Finds(r.error[0].paths, artifact, [])
    ensures Signals(artifact, origin, jobs, parse, format)
  {
    var built := MapSeq(jobs, (j: RawJob) => BuildJob(j, parse));
    var v := Values(jobs, parse, format);
    var summary := BuildSummary(v);
    artifact := BuildArtifact(origin, built, summary);
    SummaryIsShaped(v);
    ArtifactIsShaped(origin, built, summary);
    var errors := ValidateEvidence(artifact);
    r := if errors != [] then Failure(errors) else Success(artifact);
  }
}

/** What a released artifact says, key by key, in terms of the jobs it was built from. */
module CiArtifact {
  import opened Common
  import opened CiEvidence
  import opened CiTiming
  import opened LineText
  import opened MarkerSearch
  import opened PackageNames
  import opened Sorting
  import TextOrder

  /***** Times *****/

  // The whole seconds nearest to a span in microseconds, to the even one in the middle, and none for a
  // negative span.
  ghost predicate IsRounded(seconds: int, span: int) {
    if span <= 0 then seconds == 0
    else
      && -1_000_000 <= 2 * (1_000_000 * seconds - span) <= 1_000_000
      && (2 * (1_000_000 * seconds - span) in {-1_000_000, 1_000_000} ==> seconds % 2 == 0)
  }

  lemma RoundedExactly(seconds: int, span: int)
    ensures IsRounded(seconds, span) <==> seconds == Max(0, RoundSeconds(span))
  {
  }

  // The time of a text that is there.
  ghost predicate IsTime(text: Option<string>, time: int, parse: string -> int) { text.Some? && parse(text.value) == time }

  ghost predicate Lasts(job: RawJob, seconds: int, parse: string -> int) {
    if job.startedAt.None? || job.completedAt.None? then seconds == 0
    else IsRounded(seconds, parse(job.completedAt.value) - parse(job.startedAt.value))
  }

  lemma LastsExactly(job: RawJob, seconds: int, parse: string -> int)
    ensures Lasts(job, seconds, parse) <==> seconds == DurationSeconds(Times(job, parse))
  {
    if job.startedAt.Some? && job.completedAt.Some? {
      RoundedExactly(seconds, parse(job.completedAt.value) - parse(job.startedAt.value));
    }
  }

  /***** Categories *****/

  // A fragment of the name and the category it stands for, the first that fits.
  ghost const RULES: seq<(string, string)> := [
    ("workflow lint", "workflow_lint"), ("lint typecheck security", "lint_typecheck_security"), ("coverage", "coverage"),
    ("postgres", "postgres_runtime"), ("docker", "docker_build_or_scan"), ("container", "docker_build_or_scan"),
    ("test", "test")]

  // From character i on, the name reads as the fragment: capitals count as small letters, hyphens and
  // underscores as blanks.
  ghost predicate SaysAt(name: string, fragment: string, i: int) {
    0 <= i <= |name| - |fragment| && forall k :: 0 <= k < |fragment| ==> Plain(name[i + k]) == fragment[k]
  }

  ghost function Plain(c: char): char { if c in {'-', '_'} then ' ' else SmallOf(c) }

  ghost predicate Says(name: string, fragment: string) { exists i :: SaysAt(name, fragment, i) }

  // The first rule that fits the name, or the number of rules when none does.
  ghost predicate FirstRule(name: string, r: nat) {
    && r <= |RULES| && (r < |RULES| ==> Says(name, RULES[r].0))
    && forall q :: 0 <= q < r ==> !Says(name, RULES[q].0)
  }

  ghost predicate IsCategory(job: RawJob, category: Option<string>) {
    var name := if job.name.Some? then job.name.value else "unknown";
    if job.conclusion in {None, Some("success"), Some("skipped"), Some("unknown")} then category == None
    else if job.conclusion == Some("cancelled") then category == Some("cancelled")
    else if job.conclusion == Some("timed_out") then category == Some("timeout")
    else exists r: nat ::
      FirstRule(name, r) && category == Some(RuleCategory(r))
  }

  lemma SpacedAt(name: string, fragment: string, i: int)
    ensures At(Spaced(Lowered(name)), fragment, i) <==> SaysAt(name, fragment, i)
  {
    var spaced := Spaced(Lowered(name));
    if 0 <= i <= |name| - |fragment| {
      var part := spaced[i..i + |fragment|];
      forall k | 0 <= k < |fragment| ensures part[k] == Plain(name[i + k]) { PlainExact(name[i + k]); }
    }
  }

  lemma PlainExact(c: char)
    ensures (if Lower(c) == '-' || Lower(c) == '_' then ' ' else Lower(c)) == Plain(c)
  {
    LowerExact(c);
  }

  lemma SpacedSays(name: string, fragment: string)
    ensures Contains(Spaced(Lowered(name)), fragment) <==> Says(name, fragment)
  {
    forall i ensures At(Spaced(Lowered(name)), fragment, i) <==> SaysAt(name, fragment, i) { SpacedAt(name, fragment, i); }
  }

  ghost function RuleCategory(r: nat): string { if r < |RULES| then RULES[r].1 else "unclassified_failure" }

  lemma NameCategoryIsRule(name: string, r: nat)
    requires FirstRule(name, r)
    ensures NameCategory(Spaced(Lowered(name))) == RuleCategory(r)
  {
    forall q | 0 <= q < |RULES| ensures Contains(Spaced(Lowered(name)), RULES[q].0) <==> Says(name, RULES[q].0) {
      SpacedSays(name, RULES[q].0);
    }
    var spaced := Spaced(Lowered(name));
    assert |RULES| == 7;
    assert forall q :: 0 <= q < r ==> !Contains(spaced, RULES[q].0);
    assert r > 0 ==> !Contains(spaced, RULES[0].0);
    assert r > 1 ==> !Contains(spaced, RULES[1].0);
    assert r > 2 ==> !Contains(spaced, RULES[2].0);
    assert r > 3 ==> !Contains(spaced, RULES[3].0);
    assert r > 4 ==> !Contains(spaced, RULES[4].0);
    assert r > 5 ==> !Contains(spaced, RULES[5].0);
    assert r > 6 ==> !Contains(spaced, RULES[6].0);
  }

  /** The category of a job is that of its conclusion, or of the first rule that fits its name. */
  lemma CategoryExact(job: RawJob, category: Option<string>)
    ensures IsCategory(job, category) <==> category == Category(job)
  {
    var name := if job.name.Some? then job.name.value else "unknown";
    var first := RuleOf(name, 0);
    forall r: nat | FirstRule(name, r) ensures NameCategory(Spaced(Lowered(name))) == RuleCategory(r) {
      NameCategoryIsRule(name, r);
    }
  }

  lemma RuleOf(name: string, tried: nat) returns (r: nat)
    requires tried <= |RULES| && forall q :: 0 <= q < tried ==> !Says(name, RULES[q].0)
    ensures FirstRule(name, r)
    decreases |RULES| - tried
  {
    if tried == |RULES| || Says(name, RULES[tried].0) { r := tried; } else { r := RuleOf(name, tried + 1); }
  }

  /***** Jobs *****/

  ghost predicate IsTextOr(json: Json, text: Option<string>, otherwise: Json) {
    match text
    case None => json == otherwise
    case Some(t) => json == Text(t)
  }

  // The texts in order.
  ghost predicate ListsTexts(json: Json, texts: seq<string>) {
    && json.Array? && |json.items| == |texts| && (forall i :: 0 <= i < |texts| ==> json.items[i] == Text(texts[i]))
    && forall i, j :: 0 <= i < j < |texts| ==> !TextOrder.Precedes(texts[j], texts[i])
  }

  const JOB_FIELDS: set<string> := {
    "name", "status", "conclusion", "failureCategory", "startedAtUtc", "completedAtUtc", "durationSeconds", "runnerName",
    "labels", "steps"
  }

  // json says of the job what the payload says.
  ghost predicate CarriesJob(json: Json, job: RawJob, parse: string -> int) {
    && json.Object? && json.fields.Keys == JOB_FIELDS
    && IsTextOr(json.fields["name"], job.name, Text("unknown"))
    && IsTextOr(json.fields["status"], job.status, Text("unknown"))
    && IsTextOr(json.fields["conclusion"], job.conclusion, Text("unknown"))
    && IsTextOr(json.fields["startedAtUtc"], job.startedAt, Null)
    && IsTextOr(json.fields["completedAtUtc"], job.completedAt, Null)
    && IsTextOr(json.fields["runnerName"], job.runnerName, Null)
    && (exists category :: IsCategory(job, category) && IsTextOr(json.fields["failureCategory"], category, Null))
    && (exists seconds :: Lasts(job, seconds, parse) && json.fields["durationSeconds"] == Number(seconds))
    && (exists texts: seq<string> :: multiset(texts) == multiset(job.labels) && ListsTexts(json.fields["labels"], texts))
    && json.fields["steps"] == Array(job.steps)
  }

  lemma OrderedTexts(texts: seq<string>)
    ensures multiset(Ordered(texts)) == multiset(texts)
    ensures ListsTexts(Array(MapSeq(Ordered(texts), (l: string) => Text(l))), Ordered(texts))
  {
    SortPermutes(texts, TextOrder.Leq);
    TextOrderIsOrder();
    SortSorts(texts, TextOrder.Leq);
    SortedTexts(Ordered(texts));
  }

  lemma SortedTexts(texts: seq<string>)
    requires Sorted(texts, TextOrder.Leq)
    ensures forall i, j :: 0 <= i < j < |texts| ==> !TextOrder.Precedes(texts[j], texts[i])
  {
    forall i, j | 0 <= i < j < |texts| ensures !TextOrder.Precedes(texts[j], texts[i]) {
      TextOrder.LessExactly(texts[j], texts[i]);
      if TextOrder.Leq(texts[j], texts[i]) { TextOrder.LeqIsAntisymmetric(texts[i], texts[j]); }
    }
  }

  lemma BuiltTexts(job: RawJob, parse: string -> int)
    ensures var f := BuildJob(job, parse).fields;
            && f.Keys == JOB_FIELDS
            && f["name"] == TextOrUnknown(job.name) && f["status"] == TextOrUnknown(job.status)
            && f["conclusion"] == TextOrUnknown(job.conclusion) && f["failureCategory"] == TextOrNull(Category(job))
  {
  }

  lemma BuiltTimes(job: RawJob, parse: string -> int)
    ensures var f := BuildJob(job, parse).fields;
            && JOB_FIELDS <= f.Keys
            && f["startedAtUtc"] == TextOrNull(job.startedAt) && f["completedAtUtc"] == TextOrNull(job.completedAt)
            && f["durationSeconds"] == Number(DurationSeconds(Times(job, parse)))
            && f["runnerName"] == TextOrNull(job.runnerName)
            && f["labels"] == Array(MapSeq(Ordered(job.labels), (l: string) => Text(l))) && f["steps"] == Array(job.steps)
  {
  }

  lemma BuildJobCarries(job: RawJob, parse: string -> int)
    ensures CarriesJob(BuildJob(job, parse), job, parse)
  {
    CategoryExact(job, Category(job));
    LastsExactly(job, DurationSeconds(Times(job, parse)), parse);
    OrderedTexts(job.labels);
    BuiltTexts(job, parse);
    BuiltTimes(job, parse);
    JobCarries(BuildJob(job, parse), job, parse);
  }

  lemma JobCarries(json: Json, job: RawJob, parse: string -> int)
    requires json.Object? && json.fields.Keys == JOB_FIELDS
    requires json.fields["name"] == TextOrUnknown(job.name) && json.fields["status"] == TextOrUnknown(job.status)
    requires json.fields["conclusion"] == TextOrUnknown(job.conclusion)
    requires json.fields["failureCategory"] == TextOrNull(Category(job)) && IsCategory(job, Category(job))
    requires json.fields["startedAtUtc"] == TextOrNull(job.startedAt)
    requires json.fields["completedAtUtc"] == TextOrNull(job.completedAt)
    requires json.fields["runnerName"] == TextOrNull(job.runnerName)
    requires json.fields["durationSeconds"] == Number(DurationSeconds(Times(job, parse)))
    requires Lasts(job, DurationSeconds(Times(job, parse)), parse)
    requires multiset(Ordered(job.labels)) == multiset(job.labels) && ListsTexts(json.fields["labels"], Ordered(job.labels))
    requires json.fields["steps"] == Array(job.steps)
    ensures CarriesJob(json, job, parse)
  {
    assert IsTextOr(json.fields["failureCategory"], Category(job), Null);
  }

  /***** The summary *****/

  ghost predicate IsEarliestStart(jobs: seq<RawJob>, time: int, parse: string -> int) {
    && (exists i :: 0 <= i < |jobs| && IsTime(jobs[i].startedAt, time, parse))
    && forall i, t :: 0 <= i < |jobs| && IsTime(jobs[i].startedAt, t, parse) ==> time <= t
  }

  ghost predicate IsLatestCompletion(jobs: seq<RawJob>, time: int, parse: string -> int) {
    && (exists i :: 0 <= i < |jobs| && IsTime(jobs[i].completedAt, time, parse))
    && forall i, t :: 0 <= i < |jobs| && IsTime(jobs[i].completedAt, t, parse) ==> t <= time
  }

  // json shows the time in whole seconds, cut off.
  ghost predicate ShowsTime(json: Json, time: int, format: int -> string) {
    exists seconds :: 1_000_000 * seconds <= time < 1_000_000 * (seconds + 1) && json == Text(format(seconds))
  }

  // The window of the workflow: from the earliest start to the latest completion, when there are both.
  ghost predicate CarriesWindow(started: Json, completed: Json, wallClock: Json, jobs: seq<RawJob>,
                                parse: string -> int, format: int -> string) {
    if (forall i :: 0 <= i < |jobs| ==> jobs[i].startedAt.None?) || (forall i :: 0 <= i < |jobs| ==> jobs[i].completedAt.None?)
    then started == Null && completed == Null && wallClock == Number(0)
    else exists s, c, seconds ::
      && IsEarliestStart(jobs, s, parse) && IsLatestCompletion(jobs, c, parse) && IsRounded(seconds, c - s)
      && ShowsTime(started, s, format) && ShowsTime(completed, c, format) && wallClock == Number(seconds)
  }

  // The first of the completed jobs that take the longest.
  ghost predicate IsLongestJob(jobs: seq<RawJob>, i: nat, seconds: int, parse: string -> int) {
    && i < |jobs| && jobs[i].completedAt.Some? && Lasts(jobs[i], seconds, parse)
    && (forall j, s :: 0 <= j < |jobs| && jobs[j].completedAt.Some? && Lasts(jobs[j], s, parse) ==> s <= seconds)
    && forall j, s :: 0 <= j < i && jobs[j].completedAt.Some? && Lasts(jobs[j], s, parse) ==> s < seconds
  }

  ghost predicate CarriesLongest(name: Json, seconds: Json, jobs: seq<RawJob>, parse: string -> int) {
    if forall i :: 0 <= i < |jobs| ==> jobs[i].completedAt.None? then name == Null && seconds == Number(0)
    else exists i: nat, s ::
      IsLongestJob(jobs, i, s, parse) && IsTextOr(name, jobs[i].name, Text("unknown")) && seconds == Number(s)
  }

  // The number of jobs that concluded in one of these ways.
  ghost function Concluding(jobs: seq<RawJob>, conclusions: set<string>): set<nat> {
    set i: nat | i < |jobs| && exists c :: c in conclusions && jobs[i].conclusion == Some(c)
  }

  ghost function CompletedJobs(jobs: seq<RawJob>): set<nat> { set i: nat | i < |jobs| && jobs[i].completedAt.Some? }

  // The categories of the failed and the cancelled jobs, each once, in order.
  ghost predicate CarriesCategories(json: Json, jobs: seq<RawJob>) {
    exists texts: seq<string> ::
      && ListsTexts(json, texts) && Distinct(texts)
      && forall c :: c in texts <==>
           exists i :: i in Concluding(jobs, {"failure", "timed_out", "cancelled"}) && IsCategory(jobs[i], Some(c))
  }

  ghost predicate CarriesSummary(summary: Json, jobs: seq<RawJob>, parse: string -> int, format: int -> string) {
    && summary.Object? && summary.fields.Keys == REQUIRED_SUMMARY
    && var f := summary.fields;
       && f["jobCount"] == Number(|jobs|)
       && f["completedJobCount"] == Number(|CompletedJobs(jobs)|)
       && f["failedJobCount"] == Number(|Concluding(jobs, {"failure", "timed_out"})|)
       && f["cancelledJobCount"] == Number(|Concluding(jobs, {"cancelled"})|)
       && CarriesWindow(f["workflowStartedAtUtc"], f["workflowCompletedAtUtc"], f["workflowWallClockSeconds"], jobs, parse, format)
       && f["criticalPathBasis"] == Text("workflow_wall_clock") && f["criticalPathJobName"] == Null
       && f["criticalPathSeconds"] == f["workflowWallClockSeconds"]
       && CarriesLongest(f["longestJobName"], f["longestJobSeconds"], jobs, parse)
       && CarriesCategories(f["failureCategories"], jobs)
       && f["cacheEvidence"] == Text("not_captured_by_github_jobs_api")
  }

  ghost predicate CarriesOrigin(f: map<string, Json>, origin: Origin)
    requires REQUIRED_FIELDS <= f.Keys
  {
    && f["repository"] == Text(origin.repository) && f["commitSha"] == Text(origin.commitSha)
    && f["ref"] == Text(origin.ref) && f["workflow"] == Text(origin.workflow)
    && f["runId"] == Text(origin.runId) && f["runAttempt"] == Text(origin.runAttempt)
    && f["generatedAtUtc"] == Text(origin.generatedAtUtc) && f["source"] == Text(origin.source)
    && f["schemaVersion"] == Text("lotus-idea.ci-signal-evidence.v1") && f["thresholdEnforced"] == Bool(false)
  }

  // The artifact says where it comes from, what each job says, and the summary of the jobs.
  ghost predicate Carries(artifact: Json, origin: Origin, jobs: seq<RawJob>, parse: string -> int, format: int -> string) {
    && artifact.Object? && artifact.fields.Keys == REQUIRED_FIELDS
    && CarriesOrigin(artifact.fields, origin)
    && artifact.fields["jobs"].Array? && |artifact.fields["jobs"].items| == |jobs|
    && (forall i :: 0 <= i < |jobs| ==> CarriesJob(artifact.fields["jobs"].items[i], jobs[i], parse))
    && CarriesSummary(artifact.fields["summary"], jobs, parse, format)
  }

  /***** The artifact that is built *****/

  lemma StartedTimes(jobs: seq<RawJob>, t: int, parse: string -> int)
    ensures t in Started(AllTimes(jobs, parse)) <==> exists i :: 0 <= i < |jobs| && IsTime(jobs[i].startedAt, t, parse)
    ensures t in Completed(AllTimes(jobs, parse)) <==> exists i :: 0 <= i < |jobs| && IsTime(jobs[i].completedAt, t, parse)
  {
    var times := AllTimes(jobs, parse);
    var started, completed := MapSeq(times, (j: JobTimes) => j.started), MapSeq(times, (j: JobTimes) => j.completed);
    forall i | 0 <= i < |jobs|
      ensures started[i] == Some(t) <==> IsTime(jobs[i].startedAt, t, parse)
      ensures completed[i] == Some(t) <==> IsTime(jobs[i].completedAt, t, parse)
    {
      assert times[i] == Times(jobs[i], parse);
    }
  }

  lemma TimesExact(jobs: seq<RawJob>, parse: string -> int)
    ensures var times := AllTimes(jobs, parse);
            && (forall s :: IsEarliest(s, Started(times)) <==> IsEarliestStart(jobs, s, parse))
            && (forall c :: IsLatest(c, Completed(times)) <==> IsLatestCompletion(jobs, c, parse))
            && (Started(times) == [] <==> forall i :: 0 <= i < |jobs| ==> jobs[i].startedAt.None?)
            && (Completed(times) == [] <==> forall i :: 0 <= i < |jobs| ==> jobs[i].completedAt.None?)
  {
    forall t { StartedTimes(jobs, t, parse); }
    var started, completed := Started(AllTimes(jobs, parse)), Completed(AllTimes(jobs, parse));
    assert started != [] ==> started[0] in started;
    assert completed != [] ==> completed[0] in completed;
    if i :| 0 <= i < |jobs| && jobs[i].startedAt.Some? { assert IsTime(jobs[i].startedAt, parse(jobs[i].startedAt.value), parse); }
    if i :| 0 <= i < |jobs| && jobs[i].completedAt.Some? {
      assert IsTime(jobs[i].completedAt, parse(jobs[i].completedAt.value), parse);
    }
  }

  lemma WindowShows(s: int, c: int, format: int -> string)
    ensures var w := WindowOf(s, c);
            && ShowsTime(FormatOrNull(w.started, format), s, format)
            && ShowsTime(FormatOrNull(w.completed, format), c, format)
            && IsRounded(w.wallClock, c - s)
  {
    RoundedExactly(Max(0, RoundSeconds(c - s)), c - s);
    assert 1_000_000 * Truncated(s) <= s < 1_000_000 * (Truncated(s) + 1);
    assert 1_000_000 * Truncated(c) <= c < 1_000_000 * (Truncated(c) + 1);
  }

  lemma WindowFor(s: int, c: int, jobs: seq<RawJob>, parse: string -> int, format: int -> string)
    requires IsEarliestStart(jobs, s, parse) && IsLatestCompletion(jobs, c, parse)
    ensures var w := WindowOf(s, c);
            CarriesWindow(FormatOrNull(w.started, format), FormatOrNull(w.completed, format), Number(w.wallClock),
                          jobs, parse, format)
  {
    WindowShows(s, c, format);
    var i :| 0 <= i < |jobs| && IsTime(jobs[i].startedAt, s, parse);
    var j :| 0 <= j < |jobs| && IsTime(jobs[j].completedAt, c, parse);
    assert jobs[i].startedAt.Some? && jobs[j].completedAt.Some?;
  }

  lemma WindowIsCarried(w: Window, jobs: seq<RawJob>, parse: string -> int, format: int -> string)
    requires Spans(w, AllTimes(jobs, parse))
    ensures CarriesWindow(FormatOrNull(w.started, format), FormatOrNull(w.completed, format), Number(w.wallClock),
                          jobs, parse, format)
  {
    var started, completed := Started(AllTimes(jobs, parse)), Completed(AllTimes(jobs, parse));
    TimesExact(jobs, parse);
    if started != [] && completed != [] {
      var s, c :| IsEarliest(s, started) && IsLatest(c, completed) && w == WindowOf(s, c);
      WindowFor(s, c, jobs, parse, format);
    }
  }

  lemma LongestIsCarried(longest: Option<nat>, seconds: int, jobs: seq<RawJob>, parse: string -> int)
    requires IsLongest(longest, seconds, AllTimes(jobs, parse))
    ensures CarriesLongest(if longest.Some? then TextOrUnknown(jobs[longest.value].name) else Null, Number(seconds), jobs, parse)
  {
    var times := AllTimes(jobs, parse);
    forall i, s | 0 <= i < |jobs|
      ensures Lasts(jobs[i], s, parse) <==> s == DurationSeconds(times[i])
      ensures times[i].completed.Some? <==> jobs[i].completedAt.Some?
    {
      LastsExactly(jobs[i], s, parse);
    }
    if longest.Some? { assert IsLongestJob(jobs, longest.value, seconds, parse); }
  }

  lemma CountedTwice(texts: seq<string>, i: nat, j: nat)
    requires i < j < |texts| && texts[i] == texts[j]
    ensures multiset(texts)[texts[i]] >= 2
  {
    assert texts == texts[..i] + [texts[i]] + texts[i + 1..j] + [texts[j]] + texts[j + 1..];
  }

  lemma OnceEach(texts: seq<string>)
    requires multiset(texts) == multiset(set t | t in texts)
    ensures Distinct(texts)
  {
    forall i: nat, j: nat | i < j < |texts| && texts[i] == texts[j] ensures false { CountedTwice(texts, i, j); }
  }

  lemma CategoriesAreCarried(categories: seq<string>, jobs: seq<RawJob>)
    requires NamesCategories(categories, jobs)
    requires multiset(categories) == multiset(set c | c in categories) && Sorted(categories, TextOrder.Leq)
    ensures CarriesCategories(Array(MapSeq(categories, (c: string) => Text(c))), jobs)
  {
    OnceEach(categories);
    SortedTexts(categories);
    var concluding := Concluding(jobs, {"failure", "timed_out", "cancelled"});
    forall c ensures c in categories <==> exists i :: i in concluding && IsCategory(jobs[i], Some(c)) {
      forall i | 0 <= i < |jobs| ensures HasCategory(jobs[i], c) <==> i in concluding && IsCategory(jobs[i], Some(c)) {
        CategoryExact(jobs[i], Some(c));
      }
    }
    assert ListsTexts(Array(MapSeq(categories, (c: string) => Text(c))), categories);
  }

  lemma CountsAreCarried(jobs: seq<RawJob>)
    ensures Places(jobs, IsCompleted) == CompletedJobs(jobs)
    ensures Places(jobs, IsFailed) == Concluding(jobs, {"failure", "timed_out"})
    ensures Places(jobs, IsCancelled) == Concluding(jobs, {"cancelled"})
  {
  }

  lemma BuiltKeys(v: SummaryValues)
    ensures BuildSummary(v).fields.Keys == REQUIRED_SUMMARY
  {
  }

  lemma BuiltCounts(v: SummaryValues)
    ensures var f := BuildSummary(v).fields;
            && REQUIRED_SUMMARY <= f.Keys
            && f["jobCount"] == Number(v.jobs) && f["completedJobCount"] == Number(v.completed)
            && f["failedJobCount"] == Number(v.failed) && f["cancelledJobCount"] == Number(v.cancelled)
  {
    BuiltKeys(v);
  }

  lemma BuiltWindow(v: SummaryValues)
    ensures var f := BuildSummary(v).fields;
            && REQUIRED_SUMMARY <= f.Keys
            && f["workflowStartedAtUtc"] == v.startedAt && f["workflowCompletedAtUtc"] == v.completedAt
            && f["workflowWallClockSeconds"] == Number(v.wallClock)
            && f["criticalPathBasis"] == Text("workflow_wall_clock") && f["criticalPathJobName"] == Null
            && f["criticalPathSeconds"] == Number(v.wallClock)
  {
    BuiltKeys(v);
  }

  lemma BuiltRest(v: SummaryValues)
    ensures var f := BuildSummary(v).fields;
            && REQUIRED_SUMMARY <= f.Keys
            && f["longestJobName"] == v.longestName && f["longestJobSeconds"] == Number(v.longestSeconds)
            && f["failureCategories"] == Array(MapSeq(v.categories, (c: string) => Text(c)))
            && f["cacheEvidence"] == Text("not_captured_by_github_jobs_api")
  {
    BuiltKeys(v);
  }

  lemma SummaryIsCarried(v: SummaryValues, jobs: seq<RawJob>, parse: string -> int, format: int -> string)
    requires Describes(v, jobs, parse, format)
    ensures CarriesSummary(BuildSummary(v), jobs, parse, format)
  {
    BuiltCounts(v);
    BuiltWindow(v);
    BuiltRest(v);
    CountsAreCarried(jobs);
    CategoriesAreCarried(v.categories, jobs);
    TimesAreCarried(v, jobs, parse, format);
  }

  lemma TimesAreCarried(v: SummaryValues, jobs: seq<RawJob>, parse: string -> int, format: int -> string)
    requires ReportsTimes(v, jobs, AllTimes(jobs, parse), format)
    ensures CarriesWindow(v.startedAt, v.completedAt, Number(v.wallClock), jobs, parse, format)
    ensures CarriesLongest(v.longestName, Number(v.longestSeconds), jobs, parse)
  {
    var times := AllTimes(jobs, parse);
    var w :| Spans(w, times) && IsClose(w) && v.wallClock == w.wallClock
      && v.startedAt == FormatOrNull(w.started, format) && v.completedAt == FormatOrNull(w.completed, format);
    WindowIsCarried(w, jobs, parse, format);
    var longest: Option<nat> :| IsLongest(longest, v.longestSeconds, times)
      && v.longestName == if longest.Some? then TextOrUnknown(jobs[longest.value].name) else Null;
    LongestIsCarried(longest, v.longestSeconds, jobs, parse);
  }

  lemma ArtifactKeys(origin: Origin, jobs: seq<Json>, summary: Json)
    ensures BuildArtifact(origin, jobs, summary).fields.Keys == REQUIRED_FIELDS
  {
  }

  lemma BuiltOrigin(origin: Origin, jobs: seq<Json>, summary: Json)
    ensures var artifact := BuildArtifact(origin, jobs, summary);
            artifact.fields.Keys == REQUIRED_FIELDS && CarriesOrigin(artifact.fields, origin)
  {
    ArtifactKeys(origin, jobs, summary);
  }

  /** Every artifact that is built says, key by key, what its jobs and its origin say. */
  lemma ArtifactCarries(artifact: Json, origin: Origin, jobs: seq<RawJob>, parse: string -> int, format: int -> string)
    requires Signals(artifact, origin, jobs, parse, format)
    ensures Carries(artifact, origin, jobs, parse, format)
  {
    var v :| Describes(v, jobs, parse, format) &&
      artifact == BuildArtifact(origin, MapSeq(jobs, (j: RawJob) => BuildJob(j, parse)), BuildSummary(v));
    var built := MapSeq(jobs, (j: RawJob) => BuildJob(j, parse));
    ArtifactIsShaped(origin, built, BuildSummary(v));
    BuiltOrigin(origin, built, BuildSummary(v));
    SummaryIsCarried(v, jobs, parse, format);
    forall i | 0 <= i < |jobs| ensures CarriesJob(built[i], jobs[i], parse) { BuildJobCarries(jobs[i], parse); }
  }
}

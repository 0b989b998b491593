/** Issues as the posture reads them from a payload. */
module IssueSnapshots {
  import opened Common
  import opened IssueLabels

  // JSON true and false pass for the integers 1 and 0.
  datatype Number = Number(value: int, isBool: bool)

  datatype State = Open | Closed

  // Each field is None when the payload holds a value of another kind.
  datatype RawIssue = RawIssue(
    number: Option<Number>, state: Option<State>, title: Option<string>, url: Option<string>,
    updatedAt: Option<string>, labels: Option<seq<Option<string>>>)

  datatype Issue = Issue(
    repository: string, number: Number, state: State, title: string, url: string, updatedAt: string,
    labels: seq<string>)

  datatype Error =
    | MissingRepository(repository: string) | MalformedIssue(repository: string, index: nat)
    | MalformedClassification(index: nat) | DuplicateClassification(key: (string, int))
    | MissingClassification | StaleClassification
    | BadProjection(repository: string) | BadRepositoryName

  predicate WellFormed(raw: RawIssue) {
    && raw.number.Some? && raw.state.Some? && raw.title.Some? && raw.url.Some? && raw.updatedAt.Some?
    && raw.labels.Some? && forall i :: 0 <= i < |raw.labels.value| ==> raw.labels.value[i].Some?
  }

  // The issue says what the payload says.
  ghost predicate IsSnapshot(issue: Issue, repository: string, raw: RawIssue) {
    && issue.repository == repository
    && raw.number == Some(issue.number) && raw.state == Some(issue.state) && raw.title == Some(issue.title)
    && raw.url == Some(issue.url) && raw.updatedAt == Some(issue.updatedAt)
    && raw.labels.Some? && |raw.labels.value| == |issue.labels|
    && forall i :: 0 <= i < |issue.labels| ==> raw.labels.value[i] == Some(issue.labels[i])
  }

  function Snapshot(repository: string, raw: RawIssue): (issue: Issue)
    requires WellFormed(raw)
    ensures IsSnapshot(issue, repository, raw)
  {
    Issue(repository, raw.number.value, raw.state.value, raw.title.value, raw.url.value, raw.updatedAt.value,
          seq(|raw.labels.value|, i requires 0 <= i < |raw.labels.value| => raw.labels.value[i].value))
  }

  /** A payload entry is well formed exactly when there is an issue that says what it says, and then one only. */
  lemma WellFormedExactly(repository: string, raw: RawIssue)
    ensures WellFormed(raw) <==> exists issue :: IsSnapshot(issue, repository, raw)
    ensures forall a, b :: IsSnapshot(a, repository, raw) && IsSnapshot(b, repository, raw) ==> a == b
  {
    if WellFormed(raw) { assert IsSnapshot(Snapshot(repository, raw), repository, raw); }
    forall a, b | IsSnapshot(a, repository, raw) && IsSnapshot(b, repository, raw) ensures a == b {
      assert a.labels == b.labels;
    }
  }

  function ParseIssues(repository: string, raw: seq<RawIssue>): (r: Result<seq<Issue>, Error>)
    ensures r.Success? <==> forall i :: 0 <= i < |raw| ==> WellFormed(raw[i])
    ensures r.Success? ==>
              && |r.value| == |raw|
              && forall i :: 0 <= i < |raw| ==> r.value[i] == Snapshot(repository, raw[i])
  {
    if raw == [] then Success([])
    else
      var last := |raw| - 1;
      match ParseIssues(repository, raw[..last])
      case Failure(e) => Failure(e)
      case Success(issues) =>
        if WellFormed(raw[last]) then Success(issues + [Snapshot(repository, raw[last])])
        else Failure(MalformedIssue(repository, last))
  }

  /** The error names the first entry that is not well formed. */
  lemma {:induction false} FirstMalformed(repository: string, raw: seq<RawIssue>) returns (i: nat)
    requires ParseIssues(repository, raw).Failure?
    ensures i < |raw| && !WellFormed(raw[i]) && ParseIssues(repository, raw).error == MalformedIssue(repository, i)
    ensures forall j :: 0 <= j < i ==> WellFormed(raw[j])
  {
    var last := |raw| - 1;
    i := last;
    if ParseIssues(repository, raw[..last]).Failure? { i := FirstMalformed(repository, raw[..last]); }
  }

  predicate IsOpen(issue: Issue) { issue.state == Open }

  predicate IsClosed(issue: Issue) { issue.state == Closed }

  predicate IsOpenBlocked(issue: Issue): (blocked: bool)
    ensures blocked <==> issue.state == Open && "status/blocked" in issue.labels
  {
    StatusLabelsExact(issue.labels);
    issue.state == Open && BLOCKED in StatusLabels(issue.labels)
  }

  function KeyOf(issue: Issue): (string, int) { (issue.repository, issue.number.value) }
}

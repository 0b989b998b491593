/** What a posture says, in terms of the payloads it was read from. */
module PostureContents {
  import opened Common
  import opened IssueLabels
  import opened IssueSnapshots
  import opened IssuePosture

  // The positions of the open and of the closed entries of a list.
  ghost function InState(raw: seq<RawIssue>, state: State): set<nat> {
    set i: nat | i < |raw| && raw[i].state == Some(state)
  }

  // What the labels of a payload entry are, once each of them is a text.
  ghost predicate Labels(raw: RawIssue, labels: seq<string>) {
    && raw.labels.Some? && |raw.labels.value| == |labels|
    && forall i :: 0 <= i < |labels| ==> raw.labels.value[i] == Some(labels[i])
  }

  // The projection says what the payload entry says, and shows its status labels.
  ghost predicate ProjectsRaw(p: Projection, raw: RawIssue) {
    && raw.number == Some(p.number) && raw.title == Some(p.title) && raw.url == Some(p.url)
    && raw.updatedAt == Some(p.updatedAt) && exists labels :: Labels(raw, labels) && ShowsStatus(p.status, labels)
  }

  // The projections are those of the open entries, in order.
  ghost predicate ListsOpen(projections: seq<Projection>, raw: seq<RawIssue>) {
    exists at: seq<nat> :: IsListing(projections, raw, at)
  }

  ghost predicate IsListing(projections: seq<Projection>, raw: seq<RawIssue>, at: seq<nat>) {
    && |at| == |projections| && (forall k, m :: 0 <= k < m < |at| ==> at[k] < at[m])
    && (forall i :: i in at <==> i in InState(raw, Open))
    && forall k :: 0 <= k < |at| ==> at[k] < |raw| && ProjectsRaw(projections[k], raw[at[k]])
  }

  ghost predicate SaysRepository(s: RepositorySummary, repository: string, p: RepositoryPayload)
    requires p.openIssues.Some? && p.rfcIssues.Some?
  {
    && s.repository == repository && s.openIssueCount == |p.openIssues.value|
    && s.total == |p.rfcIssues.value|
    && s.open == |InState(p.rfcIssues.value, Open)| && s.closed == |InState(p.rfcIssues.value, Closed)|
    && ListsOpen(s.openIssues, p.rfcIssues.value)
    && forall status :: s.openByStatus[status] == |WithStatus(s.openIssues, status)|
  }

  ghost function WithStatus(projections: seq<Projection>, status: string): set<nat> {
    set i: nat | i < |projections| && projections[i].status == status
  }

  // The open issues of all repositories, whatever their labels.
  ghost function OpenTotal(payloads: Payloads, repositories: seq<string>): nat
    requires forall i :: 0 <= i < |repositories| ==> repositories[i] in payloads && payloads[repositories[i]].openIssues.Some?
  {
    if repositories == [] then 0
    else
      var last := |repositories| - 1;
      OpenTotal(payloads, repositories[..last]) + |payloads[repositories[last]].openIssues.value|
  }

  ghost predicate Says(posture: Posture, payloads: Payloads, repositories: seq<string>) {
    && |posture.repositories| == |repositories|
    && (forall i :: 0 <= i < |repositories| ==>
          && repositories[i] in payloads
          && payloads[repositories[i]].openIssues.Some? && payloads[repositories[i]].rfcIssues.Some?
          && SaysRepository(posture.repositories[i], repositories[i], payloads[repositories[i]]))
    && posture.totalOpenIssues == OpenTotal(payloads, repositories)
  }

  lemma ParsedStates(repository: string, raw: seq<RawIssue>, issues: seq<Issue>)
    requires AllWellFormed(raw) && issues == ParseIssues(repository, raw).value
    ensures Places(issues, IsOpen) == InState(raw, Open) && Places(issues, IsClosed) == InState(raw, Closed)
  {
    forall i | 0 <= i < |raw| ensures raw[i].state == Some(issues[i].state) {
      assert IsSnapshot(issues[i], repository, raw[i]);
    }
  }

  lemma ProjectSays(issue: Issue, repository: string, raw: RawIssue)
    requires IsSnapshot(issue, repository, raw)
    ensures ProjectsRaw(Project(issue), raw)
  {
    StatusKeyShows(issue.labels);
    assert Labels(raw, issue.labels);
  }

  lemma OpenAreListed(repository: string, raw: seq<RawIssue>)
    requires AllWellFormed(raw)
    ensures ListsOpen(MapSeq(Filter(ParseIssues(repository, raw).value, IsOpen), Project), raw)
  {
    var issues := ParseIssues(repository, raw).value;
    var open := Filter(issues, IsOpen);
    var at := FilterKeepsPlaces(issues, IsOpen);
    ParsedStates(repository, raw, issues);
    forall k | 0 <= k < |at| ensures ProjectsRaw(MapSeq(open, Project)[k], raw[at[k]]) {
      assert IsSnapshot(issues[at[k]], repository, raw[at[k]]);
      ProjectSays(open[k], repository, raw[at[k]]);
    }
    forall i ensures i in at <==> i in InState(raw, Open) {
      assert i in InState(raw, Open) <==> i in Places(issues, IsOpen);
    }
    assert IsListing(MapSeq(open, Project), raw, at);
  }

  lemma {:induction false} StatusCounts(projections: seq<Projection>, status: string)
    ensures multiset(MapSeq(projections, ProjectedStatus))[status] == |WithStatus(projections, status)|
  {
    if projections == [] {
      assert WithStatus(projections, status) == {};
    } else {
      var last := |projections| - 1;
      var init := projections[..last];
      StatusCounts(init, status);
      assert MapSeq(projections, ProjectedStatus) == MapSeq(init, ProjectedStatus) + [projections[last].status];
      assert WithStatus(projections, status) ==
             WithStatus(init, status) + if projections[last].status == status then {last} else {};
    }
  }

  lemma SummarySays(payloads: Payloads, repository: string)
    requires Readable(payloads, repository)
    ensures SaysRepository(SummaryOf(payloads, repository), repository, payloads[repository])
  {
    var raw := payloads[repository].rfcIssues.value;
    var s := SummaryOf(payloads, repository);
    var issues := RfcIssues(payloads, repository);
    ParsedStates(repository, raw, issues);
    FilterCounts(issues, IsOpen);
    FilterCounts(issues, IsClosed);
    OpenAreListed(repository, raw);
    SummaryConserves(repository, s.openIssueCount, issues);
    forall status ensures s.openByStatus[status] == |WithStatus(s.openIssues, status)| {
      StatusCounts(s.openIssues, status);
    }
  }

  lemma {:induction false} OpenIsSum(summaries: seq<RepositorySummary>, payloads: Payloads, repositories: seq<string>)
    requires Summaries(summaries, payloads, repositories)
    ensures Sum(summaries, OpenIssueCountOf) == OpenTotal(payloads, repositories)
  {
    if repositories != [] {
      var last := |repositories| - 1;
      OpenIsSum(summaries[..last], payloads, repositories[..last]);
      SummarySays(payloads, repositories[last]);
      assert summaries[last] == SummaryOf(payloads, repositories[last]);
    }
  }

  /** The posture that is built says of each repository what its payload says: how many issues are open at
      all, which of the RFC issues are open, and what each of those carries. */
  lemma PostureSays(posture: Posture, payloads: Payloads, repositories: seq<string>)
    requires Summaries(posture.repositories, payloads, repositories)
    requires posture.totalOpenIssues == Sum(posture.repositories, OpenIssueCountOf)
    ensures Says(posture, payloads, repositories)
  {
    OpenIsSum(posture.repositories, payloads, repositories);
    forall i | 0 <= i < |repositories|
      ensures Readable(payloads, repositories[i])
      ensures SaysRepository(posture.repositories[i], repositories[i], payloads[repositories[i]])
    {
      SummarySays(payloads, repositories[i]);
    }
  }
}

/** The posture of all repositories: per-repository summaries and the counts accumulated over them. */
module IssuePosture {
  import opened Common
  import opened IssueLabels
  import opened IssueSnapshots
  import opened BlockerActionability

  datatype Projection = Projection(number: Number, title: string, url: string, updatedAt: string, status: string)

  datatype RepositorySummary = RepositorySummary(
    repository: string, openIssueCount: nat, total: nat, open: nat, closed: nat,
    openByStatus: multiset<string>, openIssues: seq<Projection>)

  datatype Counts = Counts(repositories: nat, total: nat, open: nat, closed: nat, openByStatus: multiset<string>)

  datatype Posture = Posture(
    counts: Counts, blocked: Blocked, repositories: seq<RepositorySummary>, totalOpenIssues: nat)

  // The lists of one repository; None for a value that is no list.
  datatype RepositoryPayload = RepositoryPayload(
    openIssues: Option<seq<RawIssue>>, allIssues: Option<seq<RawIssue>>, rfcIssues: Option<seq<RawIssue>>)

  type Payloads = map<string, RepositoryPayload>

  function StatusOf(issue: Issue): string { StatusKey(issue.labels) }

  function Project(issue: Issue): Projection {
    Projection(issue.number, issue.title, issue.url, issue.updatedAt, StatusOf(issue))
  }

  function Summarize(repository: string, openIssueCount: nat, issues: seq<Issue>): RepositorySummary {
    var open, closed := Filter(issues, IsOpen), Filter(issues, IsClosed);
    RepositorySummary(repository, openIssueCount, |issues|, |open|, |closed|,
                      multiset(MapSeq(open, StatusOf)), MapSeq(open, Project))
  }

  // Two ways of saying that a summary conserves its issues.
  ghost predicate Conserves(s: RepositorySummary) {
    && s.open + s.closed == s.total
    && |s.openIssues| == s.open && |s.openByStatus| == s.open
    && s.openByStatus == multiset(MapSeq(s.openIssues, ProjectedStatus))
  }

  lemma {:induction false} OpenAndClosed(issues: seq<Issue>)
    ensures |Filter(issues, IsOpen)| + |Filter(issues, IsClosed)| == |issues|
  {
    if issues != [] {
      OpenAndClosed(issues[1..]);
      match issues[0].state case Open => case Closed =>
    }
  }

  lemma SummaryConserves(repository: string, openIssueCount: nat, issues: seq<Issue>)
    ensures Conserves(Summarize(repository, openIssueCount, issues))
  {
    OpenAndClosed(issues);
    var s := Summarize(repository, openIssueCount, issues);
    assert MapSeq(s.openIssues, ProjectedStatus) == MapSeq(Filter(issues, IsOpen), StatusOf);
  }

  ghost predicate AllConserve(summaries: seq<RepositorySummary>) {
    forall i :: 0 <= i < |summaries| ==> Conserves(summaries[i])
  }

  // All projected open issues, repository after repository.
  ghost function AllOpen(summaries: seq<RepositorySummary>): seq<Projection> {
    if summaries == [] then []
    else AllOpen(summaries[..|summaries| - 1]) + summaries[|summaries| - 1].openIssues
  }

  ghost function Sum(summaries: seq<RepositorySummary>, part: RepositorySummary -> nat): nat {
    if summaries == [] then 0
    else Sum(summaries[..|summaries| - 1], part) + part(summaries[|summaries| - 1])
  }

  ghost function TotalOf(s: RepositorySummary): nat { s.total }

  ghost function ClosedOf(s: RepositorySummary): nat { s.closed }

  ghost function OpenIssueCountOf(s: RepositorySummary): nat { s.openIssueCount }

  ghost function ProjectedStatus(p: Projection): string { p.status }

  ghost function Statuses(summaries: seq<RepositorySummary>): (m: multiset<string>)
    ensures |m| == |AllOpen(summaries)|
  {
    multiset(MapSeq(AllOpen(summaries), ProjectedStatus))
  }

  lemma OneMore(summaries: seq<RepositorySummary>, i: nat, part: RepositorySummary -> nat)
    requires i < |summaries|
    ensures Sum(summaries[..i + 1], part) == Sum(summaries[..i], part) + part(summaries[i])
    ensures AllOpen(summaries[..i + 1]) == AllOpen(summaries[..i]) + summaries[i].openIssues
  {
    assert summaries[..i + 1][..i] == summaries[..i];
  }

  lemma OneMoreStatus(summaries: seq<RepositorySummary>, i: nat)
    requires i < |summaries| && Conserves(summaries[i])
    ensures Statuses(summaries[..i + 1]) == Statuses(summaries[..i]) + summaries[i].openByStatus
  {
    OneMore(summaries, i, TotalOf);
    assert MapSeq(AllOpen(summaries[..i + 1]), ProjectedStatus) ==
           MapSeq(AllOpen(summaries[..i]), ProjectedStatus) + MapSeq(summaries[i].openIssues, ProjectedStatus);
  }

  /** The aggregate is exactly what its repositories add up to, and conserves issues like each of them. */
  method AggregateCounts(summaries: seq<RepositorySummary>) returns (counts: Counts)
    requires AllConserve(summaries)
    ensures counts.repositories == |summaries|
    ensures counts.total == Sum(summaries, TotalOf) && counts.closed == Sum(summaries, ClosedOf)
    ensures counts.open == |AllOpen(summaries)| && counts.open + counts.closed == counts.total
    ensures counts.openByStatus == Statuses(summaries)
  {
    var openByStatus: multiset<string> := multiset{};
    var open, closed, total := 0, 0, 0;
    for i := 0 to |summaries|
      invariant total == Sum(summaries[..i], TotalOf) && closed == Sum(summaries[..i], ClosedOf)
      invariant open == |AllOpen(summaries[..i])| && open + closed == total
      invariant openByStatus == Statuses(summaries[..i])
    {
      assert Conserves(summaries[i]);
      OneMore(summaries, i, TotalOf);
      OneMore(summaries, i, ClosedOf);
      OneMoreStatus(summaries, i);
      open := open + summaries[i].open;
      closed := closed + summaries[i].closed;
      total := total + summaries[i].total;
      openByStatus := openByStatus + summaries[i].openByStatus;
    }
    assert summaries[..|summaries|] == summaries;
    counts := Counts(|summaries|, total, open, closed, openByStatus);
  }

  /***** Building the posture *****/

  ghost predicate AllWellFormed(raw: seq<RawIssue>) { forall i :: 0 <= i < |raw| ==> WellFormed(raw[i]) }

  ghost predicate Readable(payloads: Payloads, repository: string) {
    && repository in payloads
    && var p := payloads[repository];
       && p.openIssues.Some? && p.allIssues.Some? && p.rfcIssues.Some?
       && AllWellFormed(p.allIssues.value) && AllWellFormed(p.rfcIssues.value)
  }

  ghost function RfcIssues(payloads: Payloads, repository: string): seq<Issue>
    requires Readable(payloads, repository)
  {
    ParseIssues(repository, payloads[repository].rfcIssues.value).value
  }

  ghost predicate AllReadable(payloads: Payloads, repositories: seq<string>) {
    forall i :: 0 <= i < |repositories| ==> Readable(payloads, repositories[i])
  }

  // The RFC issues of all repositories, in order.
  ghost function AllIssues(payloads: Payloads, repositories: seq<string>): seq<Issue>
    requires AllReadable(payloads, repositories)
  {
    if repositories == [] then []
    else
      var last := |repositories| - 1;
      AllIssues(payloads, repositories[..last]) + RfcIssues(payloads, repositories[last])
  }

  ghost function SummaryOf(payloads: Payloads, repository: string): RepositorySummary
    requires Readable(payloads, repository)
  {
    Summarize(repository, |payloads[repository].openIssues.value|, RfcIssues(payloads, repository))
  }

  ghost predicate Summaries(summaries: seq<RepositorySummary>, payloads: Payloads, repositories: seq<string>) {
    && AllReadable(payloads, repositories)
    && |summaries| == |repositories|
    && forall i :: 0 <= i < |repositories| ==> summaries[i] == SummaryOf(payloads, repositories[i])
  }

  method ReadRepository(payloads: Payloads, repository: string)
      returns (r: Result<(RepositorySummary, seq<Issue>), Error>)
    ensures r.Success? <==> Readable(payloads, repository)
    ensures r == Failure(MissingRepository(repository)) <==>
              repository !in payloads || payloads[repository].openIssues.None? ||
              payloads[repository].allIssues.None? || payloads[repository].rfcIssues.None?
    ensures r.Success? ==>
              && r.value == (SummaryOf(payloads, repository), RfcIssues(payloads, repository))
              && Conserves(r.value.0)
  {
    if repository !in payloads { return Failure(MissingRepository(repository)); }
    var p := payloads[repository];
    if p.openIssues.None? || p.allIssues.None? || p.rfcIssues.None? { return Failure(MissingRepository(repository)); }
    var rfc := ParseIssues(repository, p.rfcIssues.value);
    if rfc.Failure? {
      ghost var i := FirstMalformed(repository, p.rfcIssues.value);
      return Failure(rfc.error);
    }
    var all := ParseIssues(repository, p.allIssues.value);
    if all.Failure? {
      ghost var i := FirstMalformed(repository, p.allIssues.value);
      return Failure(all.error);
    }
    SummaryConserves(repository, |p.openIssues.value|, rfc.value);
    r := Success((Summarize(repository, |p.openIssues.value|, rfc.value), rfc.value));
  }

  lemma OneMoreRead(payloads: Payloads, done: seq<string>, repository: string)
    requires AllReadable(payloads, done) && Readable(payloads, repository)
    ensures AllReadable(payloads, done + [repository])
    ensures AllIssues(payloads, done + [repository]) == AllIssues(payloads, done) + RfcIssues(payloads, repository)
  {
  }

  // The loop's state after the repositories in done.
  ghost predicate ReadSoFar(
      summaries: seq<RepositorySummary>, issues: seq<Issue>, totalOpen: nat, payloads: Payloads, done: seq<string>)
  {
    && Summaries(summaries, payloads, done) && AllConserve(summaries)
    && issues == AllIssues(payloads, done)
    && totalOpen == Sum(summaries, OpenIssueCountOf)
  }

  lemma ReadOneMore(
      summaries: seq<RepositorySummary>, issues: seq<Issue>, totalOpen: nat, payloads: Payloads,
      done: seq<string>, repository: string, summary: RepositorySummary)
    requires ReadSoFar(summaries, issues, totalOpen, payloads, done)
    requires Readable(payloads, repository) && Conserves(summary)
    requires summary == SummaryOf(payloads, repository)
    ensures ReadSoFar(summaries + [summary], issues + RfcIssues(payloads, repository),
                      totalOpen + summary.openIssueCount, payloads, done + [repository])
  {
    OneMoreRead(payloads, done, repository);
    SummariesGrow(summaries, payloads, done, repository, summary);
    var more := summaries + [summary];
    assert more[..|more| - 1] == summaries;
  }

  lemma SummariesGrow(
      summaries: seq<RepositorySummary>, payloads: Payloads, done: seq<string>, repository: string, summary: RepositorySummary)
    requires Summaries(summaries, payloads, done) && Readable(payloads, repository)
    requires summary == SummaryOf(payloads, repository)
    ensures Summaries(summaries + [summary], payloads, done + [repository])
  {
  }

  lemma NotAllReadable(payloads: Payloads, repositories: seq<string>, i: nat)
    requires i < |repositories| && !Readable(payloads, repositories[i])
    ensures !AllReadable(payloads, repositories)
  {
  }

  // One turn of the loop.
  method ReadNext(summaries: seq<RepositorySummary>, issues: seq<Issue>, totalOpen: nat, payloads: Payloads,
                  repository: string, ghost done: seq<string>)
      returns (r: Result<(seq<RepositorySummary>, seq<Issue>, nat), Error>)
    requires ReadSoFar(summaries, issues, totalOpen, payloads, done)
    ensures r.Success? <==> Readable(payloads, repository)
    ensures r.Success? ==> ReadSoFar(r.value.0, r.value.1, r.value.2, payloads, done + [repository])
  {
    var read := ReadRepository(payloads, repository);
    if read.Failure? { return Failure(read.error); }
    var (summary, rfcIssues) := read.value;
    ReadOneMore(summaries, issues, totalOpen, payloads, done, repository, summary);
    r := Success((summaries + [summary], issues + rfcIssues, totalOpen + summary.openIssueCount));
  }

  lemma NothingRead(payloads: Payloads)
    ensures ReadSoFar([], [], 0, payloads, [])
  {
  }

  method SummarizeRepositories(repositories: seq<string>, payloads: Payloads)
      returns (r: Result<(seq<RepositorySummary>, seq<Issue>, nat), Error>)
    ensures r.Success? <==> AllReadable(payloads, repositories)
    ensures r.Success? ==> ReadSoFar(r.value.0, r.value.1, r.value.2, payloads, repositories)
  {
    var summaries: seq<RepositorySummary>, issues: seq<Issue>, totalOpen: nat := [], [], 0;
    ghost var done: seq<string> := [];
    NothingRead(payloads);
    for i := 0 to |repositories|
      invariant done == repositories[..i]
      invariant ReadSoFar(summaries, issues, totalOpen, payloads, done)
    {
      var next := ReadNext(summaries, issues, totalOpen, payloads, repositories[i], done);
      if next.Failure? {
        NotAllReadable(payloads, repositories, i);
        return next;
      }
      summaries, issues, totalOpen := next.value.0, next.value.1, next.value.2;
      done := done + [repositories[i]];
    }
    assert done == repositories;
    r := Success((summaries, issues, totalOpen));
  }

  /** The producer accepts readable payloads whose blockers are exactly classified, and the posture it
      builds conserves issues per repository, per status and in aggregate. */
  method BuildPosture(repositories: seq<string>, payloads: Payloads, classifications: map<Key, Classification>)
      returns (r: Result<Posture, Error>)
    ensures r.Success? <==>
              AllReadable(payloads, repositories) && Covers(classifications, AllIssues(payloads, repositories))
    ensures r.Success? ==>
              && Summaries(r.value.repositories, payloads, repositories)
              && AllConserve(r.value.repositories)
              && r.value.counts.repositories == |repositories|
              && r.value.counts.open == |AllOpen(r.value.repositories)|
              && r.value.counts.open + r.value.counts.closed == r.value.counts.total
              && r.value.counts.total == Sum(r.value.repositories, TotalOf)
              && r.value.counts.openByStatus == Statuses(r.value.repositories)
              && |r.value.counts.openByStatus| == r.value.counts.open
              && r.value.totalOpenIssues == Sum(r.value.repositories, OpenIssueCountOf)
              && r.value.blocked.appActionable == 0
              && Views(r.value.blocked, AllIssues(payloads, repositories), classifications)
  {
    var read := SummarizeRepositories(repositories, payloads);
    if read.Failure? { return Failure(read.error); }
    var (summaries, issues, totalOpen) := read.value;
    var blocked := BlockedActionability(issues, classifications);
    if blocked.Failure? { return Failure(blocked.error); }
    var counts := AggregateCounts(summaries);
    r := Success(Posture(counts, blocked.value, summaries, totalOpen));
  }
}

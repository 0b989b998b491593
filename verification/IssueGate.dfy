/** The live gate over a posture, and what it says of the postures the producer builds. */
module IssueGate {
  import opened Common
  import opened IssueLabels
  import opened IssueSnapshots
  import opened IssuePosture

  datatype GateError =
    | RepositoryCount | CountsDoNotSum | ProjectedDiffers
    | NotExactlyOneLabel(repository: string, number: int) | UngovernedLabel(repository: string, number: int)
    | AppActionableBlocked(count: nat)

  ghost predicate GovernedStatus(status: string) {
    status != "" && |Split(status)| == 1 && status in GOVERNED_OPEN
  }

  // The gate refuses a projection whose number is a boolean and a repository without a name.
  ghost predicate Legible(s: RepositorySummary) {
    s.repository != "" && forall i :: 0 <= i < |s.openIssues| ==> !s.openIssues[i].number.isBool
  }

  ghost predicate Governed(s: RepositorySummary) {
    forall i :: 0 <= i < |s.openIssues| ==> GovernedStatus(s.openIssues[i].status)
  }

  method CountErrors(counts: Counts, expectedRepositories: nat) returns (errors: seq<GateError>)
    ensures RepositoryCount in errors <==> counts.repositories != expectedRepositories
    ensures CountsDoNotSum in errors <==> counts.open + counts.closed != counts.total
    ensures forall e :: e in errors ==> e in {RepositoryCount, CountsDoNotSum}
  {
    errors := [];
    if counts.repositories != expectedRepositories { errors := errors + [RepositoryCount]; }
    if counts.open + counts.closed != counts.total { errors := errors + [CountsDoNotSum]; }
  }

  // The error of one projected issue, if it has one.
  ghost predicate Faults(repository: string, p: Projection, e: GateError) {
    var parts := if p.status == "" then [] else Split(p.status);
    if |parts| != 1 then e == NotExactlyOneLabel(repository, p.number.value)
    else p.status !in GOVERNED_OPEN && e == UngovernedLabel(repository, p.number.value)
  }

  method RepositoryLifecycleErrors(repository: string, issues: seq<Projection>) returns (r: Result<seq<GateError>, Error>)
    ensures r.Success? <==> forall i :: 0 <= i < |issues| ==> !issues[i].number.isBool
    ensures r.Success? ==>
              forall e :: e in r.value <==> exists i :: 0 <= i < |issues| && Faults(repository, issues[i], e)
  {
    var errors: seq<GateError> := [];
    for i := 0 to |issues|
      invariant forall j :: 0 <= j < i ==> !issues[j].number.isBool
      invariant forall e :: e in errors <==> exists j :: 0 <= j < i && Faults(repository, issues[j], e)
    {
      if issues[i].number.isBool { return Failure(BadProjection(repository)); }
      var parts := if issues[i].status == "" then [] else Split(issues[i].status);
      var number := issues[i].number.value;
      if |parts| != 1 {
        errors := errors + [NotExactlyOneLabel(repository, number)];
      } else if issues[i].status !in GOVERNED_OPEN {
        errors := errors + [UngovernedLabel(repository, number)];
      }
    }
    r := Success(errors);
  }

  // The error of some projected issue.
  ghost predicate FaultsSome(summaries: seq<RepositorySummary>, e: GateError) {
    exists i, j :: 0 <= i < |summaries| && 0 <= j < |summaries[i].openIssues|
                   && Faults(summaries[i].repository, summaries[i].openIssues[j], e)
  }

  lemma OneMoreFaults(summaries: seq<RepositorySummary>, i: nat, e: GateError)
    requires i < |summaries|
    ensures FaultsSome(summaries[..i + 1], e) <==>
              || FaultsSome(summaries[..i], e)
              || exists j :: 0 <= j < |summaries[i].openIssues| && Faults(summaries[i].repository, summaries[i].openIssues[j], e)
  {
    var more := summaries[..i + 1];
    assert more[i] == summaries[i] && forall k :: 0 <= k < i ==> more[k] == summaries[..i][k];
  }

  method OpenIssueLifecycleErrors(posture: Posture) returns (r: Result<seq<GateError>, Error>)
    ensures r.Success? <==> forall i :: 0 <= i < |posture.repositories| ==> Legible(posture.repositories[i])
    ensures r.Success? ==> forall e :: e in r.value <==> LifecycleFault(posture, e)
  {
    var errors: seq<GateError>, projected := [], 0;
    for i := 0 to |posture.repositories|
      invariant forall j :: 0 <= j < i ==> Legible(posture.repositories[j])
      invariant projected == |AllOpen(posture.repositories[..i])|
      invariant forall e :: e in errors <==> FaultsSome(posture.repositories[..i], e)
    {
      var summary := posture.repositories[i];
      OneMore(posture.repositories, i, TotalOf);
      if summary.repository == "" { return Failure(BadRepositoryName); }
      projected := projected + |summary.openIssues|;
      var found := RepositoryLifecycleErrors(summary.repository, summary.openIssues);
      if found.Failure? { return found; }
      forall e { OneMoreFaults(posture.repositories, i, e); }
      errors := errors + found.value;
    }
    assert posture.repositories[..|posture.repositories|] == posture.repositories;
    r := Success(errors + if projected != posture.counts.open then [ProjectedDiffers] else []);
  }

  ghost predicate LifecycleFault(posture: Posture, e: GateError) {
    || (e == ProjectedDiffers && |AllOpen(posture.repositories)| != posture.counts.open)
    || FaultsSome(posture.repositories, e)
  }

  // What each error of the gate means.
  ghost predicate GateFault(posture: Posture, expectedRepositories: nat, e: GateError) {
    match e
    case RepositoryCount => posture.counts.repositories != expectedRepositories
    case CountsDoNotSum => posture.counts.open + posture.counts.closed != posture.counts.total
    case AppActionableBlocked(count) => count == posture.blocked.appActionable && count != 0
    case _ => LifecycleFault(posture, e)
  }

  // All counts agree, no blocker is actionable by the app, and every issue is governed.
  ghost predicate GatePasses(posture: Posture, expectedRepositories: nat) {
    && posture.counts.repositories == expectedRepositories
    && posture.counts.open + posture.counts.closed == posture.counts.total
    && |AllOpen(posture.repositories)| == posture.counts.open
    && posture.blocked.appActionable == 0
    && forall i :: 0 <= i < |posture.repositories| ==> Governed(posture.repositories[i])
  }

  lemma FaultsSomeExactly(summaries: seq<RepositorySummary>)
    ensures (forall e :: !FaultsSome(summaries, e)) <==> forall i :: 0 <= i < |summaries| ==> Governed(summaries[i])
  {
    if i, j :| 0 <= i < |summaries| && 0 <= j < |summaries[i].openIssues| && !GovernedStatus(summaries[i].openIssues[j].status) {
      var p := summaries[i].openIssues[j];
      assert Faults(summaries[i].repository, p, NotExactlyOneLabel(summaries[i].repository, p.number.value))
          || Faults(summaries[i].repository, p, UngovernedLabel(summaries[i].repository, p.number.value));
      assert FaultsSome(summaries, NotExactlyOneLabel(summaries[i].repository, p.number.value))
          || FaultsSome(summaries, UngovernedLabel(summaries[i].repository, p.number.value));
    }
  }

  lemma GatePassesExactly(posture: Posture, expectedRepositories: nat)
    ensures (forall e :: !GateFault(posture, expectedRepositories, e)) <==> GatePasses(posture, expectedRepositories)
  {
    FaultsSomeExactly(posture.repositories);
    if forall e :: !GateFault(posture, expectedRepositories, e) {
      assert !GateFault(posture, expectedRepositories, RepositoryCount);
      assert !GateFault(posture, expectedRepositories, CountsDoNotSum);
      assert !GateFault(posture, expectedRepositories, ProjectedDiffers);
      assert !GateFault(posture, expectedRepositories, AppActionableBlocked(posture.blocked.appActionable));
      forall e ensures !FaultsSome(posture.repositories, e) { assert !GateFault(posture, expectedRepositories, e); }
    }
  }

  method PostureErrors(posture: Posture, expectedRepositories: nat) returns (r: Result<seq<GateError>, Error>)
    ensures r.Success? <==> forall i :: 0 <= i < |posture.repositories| ==> Legible(posture.repositories[i])
    ensures r.Success? ==> forall e :: e in r.value <==> GateFault(posture, expectedRepositories, e)
    ensures r.Success? ==> (r.value == [] <==> GatePasses(posture, expectedRepositories))
  {
    var countErrors := CountErrors(posture.counts, expectedRepositories);
    var lifecycle := OpenIssueLifecycleErrors(posture);
    if lifecycle.Failure? { return lifecycle; }
    var errors := countErrors + lifecycle.value;
    if posture.blocked.appActionable != 0 { errors := errors + [AppActionableBlocked(posture.blocked.appActionable)]; }
    GatePassesExactly(posture, expectedRepositories);
    assert errors != [] ==> errors[0] in errors;
    r := Success(errors);
  }

  /***** The gate over the producer's own output *****/

  // The issues of a repository that the gate looks at.
  ghost function OpenRfcIssues(payloads: Payloads, repository: string): seq<Issue>
    requires Readable(payloads, repository)
  {
    Filter(RfcIssues(payloads, repository), IsOpen)
  }

  // Every open issue's status labels are exactly one governed label.
  ghost predicate ExactlyOneGoverned(issues: seq<Issue>) {
    forall i :: 0 <= i < |issues| ==> exists g :: g in GOVERNED_OPEN && OnlyStatus(issues[i].labels, g)
  }

  ghost predicate NoBooleanNumbers(issues: seq<Issue>) {
    forall i :: 0 <= i < |issues| ==> !issues[i].number.isBool
  }

  lemma GovernedSummary(payloads: Payloads, repository: string)
    requires Readable(payloads, repository)
    ensures Governed(SummaryOf(payloads, repository)) <==> ExactlyOneGoverned(OpenRfcIssues(payloads, repository))
  {
    var issues := OpenRfcIssues(payloads, repository);
    forall i | 0 <= i < |issues|
      ensures GovernedStatus(StatusKey(issues[i].labels)) <==>
                exists g :: g in GOVERNED_OPEN && OnlyStatus(issues[i].labels, g)
    {
      StatusKeyIsGovernedExactly(issues[i].labels);
      if StatusKey(issues[i].labels) in GOVERNED_OPEN { GovernedLabelsAreWhole(StatusKey(issues[i].labels)); }
    }
    assert SummaryOf(payloads, repository).openIssues == MapSeq(issues, Project);
  }

  lemma LegibleSummary(payloads: Payloads, repository: string)
    requires Readable(payloads, repository)
    ensures Legible(SummaryOf(payloads, repository)) <==>
              repository != "" && NoBooleanNumbers(OpenRfcIssues(payloads, repository))
  {
    var issues := OpenRfcIssues(payloads, repository);
    assert SummaryOf(payloads, repository).openIssues == MapSeq(issues, Project);
  }

  // What the gate makes of a posture that the producer has built.
  lemma BuiltPassesExactly(posture: Posture, payloads: Payloads, repositories: seq<string>)
    requires Summaries(posture.repositories, payloads, repositories)
    requires posture.counts.repositories == |repositories| && posture.counts.open + posture.counts.closed == posture.counts.total
    requires |AllOpen(posture.repositories)| == posture.counts.open && posture.blocked.appActionable == 0
    ensures (forall i :: 0 <= i < |posture.repositories| ==> Legible(posture.repositories[i])) <==>
              "" !in repositories &&
              forall i :: 0 <= i < |repositories| ==> NoBooleanNumbers(OpenRfcIssues(payloads, repositories[i]))
    ensures GatePasses(posture, |repositories|) <==>
              forall i :: 0 <= i < |repositories| ==> ExactlyOneGoverned(OpenRfcIssues(payloads, repositories[i]))
  {
    forall i | 0 <= i < |repositories|
      ensures Governed(posture.repositories[i]) <==> ExactlyOneGoverned(OpenRfcIssues(payloads, repositories[i]))
      ensures Legible(posture.repositories[i]) <==>
                repositories[i] != "" && NoBooleanNumbers(OpenRfcIssues(payloads, repositories[i]))
    {
      GovernedSummary(payloads, repositories[i]);
      LegibleSummary(payloads, repositories[i]);
    }
  }

  lemma CountsAgree(posture: Posture, expectedRepositories: nat)
    requires posture.counts.repositories == expectedRepositories
    requires posture.counts.open + posture.counts.closed == posture.counts.total
    requires |AllOpen(posture.repositories)| == posture.counts.open
    ensures !GateFault(posture, expectedRepositories, RepositoryCount)
    ensures !GateFault(posture, expectedRepositories, CountsDoNotSum)
    ensures !GateFault(posture, expectedRepositories, ProjectedDiffers)
  {
  }

  /** Producer and gate: whatever the producer accepts, no count can fail the gate.  It refuses to
      decide only over a boolean issue number or a nameless repository, and otherwise passes exactly
      when every open issue carries exactly one status label, a governed one. */
  method LivePostureErrors(
      repositories: seq<string>, payloads: Payloads, classifications: map<BlockerActionability.Key, BlockerActionability.Classification>)
      returns (accepted: bool, r: Result<seq<GateError>, Error>)
    ensures accepted <==>
              && AllReadable(payloads, repositories)
              && BlockerActionability.Covers(classifications, AllIssues(payloads, repositories))
    ensures !accepted ==> r.Failure?
    ensures accepted ==>
              (r.Success? <==>
                 && "" !in repositories
                 && forall i :: 0 <= i < |repositories| ==> NoBooleanNumbers(OpenRfcIssues(payloads, repositories[i])))
    ensures accepted && r.Success? ==>
              && RepositoryCount !in r.value && CountsDoNotSum !in r.value && ProjectedDiffers !in r.value
              && (r.value == [] <==>
                    forall i :: 0 <= i < |repositories| ==> ExactlyOneGoverned(OpenRfcIssues(payloads, repositories[i])))
  {
    var built := BuildPosture(repositories, payloads, classifications);
    if built.Failure? { return false, Failure(built.error); }
    var posture := built.value;
    BuiltPassesExactly(posture, payloads, repositories);
    CountsAgree(posture, |repositories|);
    accepted := true;
    r := PostureErrors(posture, |repositories|);
  }

  /***** Payloads that the producer accepts and the gate does not read *****/

  // A repository without a name and without issues.
  const NAMELESS_PAYLOADS: Payloads := map["" := RepositoryPayload(Some([]), Some([]), Some([]))]

  lemma EmptyIsRead()
    ensures Readable(NAMELESS_PAYLOADS, "") && RfcIssues(NAMELESS_PAYLOADS, "") == []
  {
    assert ParseIssues("", []) == Success([]);
  }

  /** The producer accepts a repository whose name is empty; on its posture the gate raises. */
  lemma NamelessRepositoryStopsGate()
    ensures AllReadable(NAMELESS_PAYLOADS, [""])
    ensures BlockerActionability.Covers(map[], AllIssues(NAMELESS_PAYLOADS, [""]))
    ensures !Legible(SummaryOf(NAMELESS_PAYLOADS, ""))
  {
    var repositories := [""];
    EmptyIsRead();
    assert repositories[..0] == [] && repositories[0] == "";
    assert AllIssues(NAMELESS_PAYLOADS, repositories) == AllIssues(NAMELESS_PAYLOADS, []) + [] == [];
    NoBlockedNoKeys([]);
  }

  const BOOLEAN_ISSUE := RawIssue(
    Some(Number(1, true)), Some(Open), Some("t"), Some("u"), Some("now"), Some([Some("status/ready")]))

  const BOOLEAN_PAYLOADS: Payloads :=
    map["owner/repo" := RepositoryPayload(Some([]), Some([]), Some([BOOLEAN_ISSUE]))]

  lemma BooleanIssueIsRead(repository: string)
    ensures ParseIssues(repository, [BOOLEAN_ISSUE]).Success?
    ensures var issues := ParseIssues(repository, [BOOLEAN_ISSUE]).value;
            |issues| == 1 && issues[0].number.isBool && IsOpen(issues[0]) && issues[0].labels == ["status/ready"]
  {
    assert WellFormed([BOOLEAN_ISSUE][0]);
  }

  lemma ReadyIsNotBlocked(issue: Issue)
    requires issue.labels == ["status/ready"]
    ensures !IsOpenBlocked(issue)
  {
    StatusLabelsExact(issue.labels);
    assert BLOCKED[7] == 'b' && "status/ready"[7] == 'r';
  }

  lemma NoBlockedNoKeys(issues: seq<Issue>)
    requires forall i :: 0 <= i < |issues| ==> !IsOpenBlocked(issues[i])
    ensures BlockerActionability.Covers(map[], issues)
  {
    forall k ensures !BlockerActionability.IsBlockedKey(issues, k) {
    }
  }

  /** The producer accepts an issue whose number is JSON true; on its posture the gate raises. */
  lemma BooleanNumberStopsGate()
    ensures AllReadable(BOOLEAN_PAYLOADS, ["owner/repo"])
    ensures BlockerActionability.Covers(map[], AllIssues(BOOLEAN_PAYLOADS, ["owner/repo"]))
    ensures !NoBooleanNumbers(OpenRfcIssues(BOOLEAN_PAYLOADS, "owner/repo"))
  {
    var repositories := ["owner/repo"];
    BooleanIssueIsRead("owner/repo");
    assert Readable(BOOLEAN_PAYLOADS, "owner/repo") by { assert WellFormed([BOOLEAN_ISSUE][0]); }
    var issues := RfcIssues(BOOLEAN_PAYLOADS, "owner/repo");
    assert repositories[..0] == [] && repositories[0] == "owner/repo";
    assert AllIssues(BOOLEAN_PAYLOADS, repositories) == AllIssues(BOOLEAN_PAYLOADS, []) + issues == issues;
    ReadyIsNotBlocked(issues[0]);
    NoBlockedNoKeys(issues);
    assert issues[0] in issues && issues[0] in Filter(issues, IsOpen);
    var open := OpenRfcIssues(BOOLEAN_PAYLOADS, "owner/repo");
    var k :| 0 <= k < |open| && open[k] == issues[0];
  }
}

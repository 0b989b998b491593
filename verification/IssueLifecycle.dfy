/** The lifecycle audit of one repository's issues, and the status summary that relies on it. */
module IssueLifecycle {
  import opened IssueLabels
  import opened IssueSnapshots
  import opened Sorting

  const RFC_LABEL := "rfc/RFC-0002"

  const KNOWN_STATUS: map<string, string> := map[
    "status/ready" := "open_ready", "status/blocked" := "open_blocked",
    "status/in-progress" := "open_in_progress", "status/fixed-local" := "open_fixed_local",
    "status/pr-open" := "open_pr_raised", "status/merged-main" := "open_merged_main_qa_pending",
    "status/tracker" := "open_tracker"
  ]

  datatype IssueState = IssueState(issueNumber: int, state: State, labels: set<string>)

  datatype AuditError = UnknownLabels(number: int) | NeedsExactlyOne(number: int) | Conflicting(number: int)

  function SlashLabels(issue: IssueState): set<string> { set l | l in issue.labels && StartsWith(l, "status/") }

  // What the audit demands of an issue under the RFC.
  ghost predicate Sound(issue: IssueState) {
    && SlashLabels(issue) <= KNOWN_STATUS.Keys
    && (if issue.state == Open then |SlashLabels(issue)| == 1 else |SlashLabels(issue)| <= 1)
  }

  ghost predicate Faults(issue: IssueState, e: AuditError) {
    && RFC_LABEL in issue.labels && e.number == issue.issueNumber
    && match e
       case UnknownLabels(_) => !(SlashLabels(issue) <= KNOWN_STATUS.Keys)
       case NeedsExactlyOne(_) => issue.state == Open && |SlashLabels(issue)| != 1
       case Conflicting(_) => issue.state == Closed && |SlashLabels(issue)| > 1
  }

  method AuditLiveLifecycle(issues: seq<IssueState>) returns (errors: seq<AuditError>)
    ensures forall e :: e in errors <==> exists i :: 0 <= i < |issues| && Faults(issues[i], e)
    ensures errors == [] <==> forall i :: 0 <= i < |issues| && RFC_LABEL in issues[i].labels ==> Sound(issues[i])
  {
    errors := [];
    for i := 0 to |issues|
      invariant forall e :: e in errors <==> exists j :: 0 <= j < i && Faults(issues[j], e)
      invariant errors == [] <==> forall j :: 0 <= j < i && RFC_LABEL in issues[j].labels ==> Sound(issues[j])
    {
      var issue := issues[i];
      if RFC_LABEL in issue.labels {
        var status := SlashLabels(issue);
        if !(status <= KNOWN_STATUS.Keys) { errors := errors + [UnknownLabels(issue.issueNumber)]; }
        if issue.state == Open && |status| != 1 {
          errors := errors + [NeedsExactlyOne(issue.issueNumber)];
        } else if |status| > 1 {
          errors := errors + [Conflicting(issue.issueNumber)];
        }
      }
    }
  }

  /***** The execution status of an issue *****/

  // The statuses the summary may report for an issue: it takes whichever status label the set of
  // labels yields first.
  ghost predicate MayReport(issue: IssueState, status: string) {
    if issue.state == Closed then status == "closed_complete"
    else exists l :: l in SlashLabels(issue) && l in KNOWN_STATUS && status == KNOWN_STATUS[l]
  }

  // It raises when there is no status label to take, or the one it takes is not known.
  ghost predicate MayRaise(issue: IssueState) {
    issue.state == Open && (SlashLabels(issue) == {} || exists l :: l in SlashLabels(issue) && l !in KNOWN_STATUS)
  }

  function ExecutionStatus(issue: IssueState): (status: string)
    requires Sound(issue)
    ensures MayReport(issue, status)
    ensures forall other :: MayReport(issue, other) ==> other == status
    ensures !MayRaise(issue)
  {
    if issue.state == Closed then "closed_complete"
    else
      SingletonLabel(SlashLabels(issue));
      var l :| l in SlashLabels(issue);
      KNOWN_STATUS[l]
  }

  lemma SingletonLabel(labels: set<string>)
    requires |labels| == 1
    ensures forall a, b :: a in labels && b in labels ==> a == b
    ensures labels != {}
  {
    var l :| l in labels;
    assert |labels - {l}| == 0;
    assert labels == {l} + (labels - {l});
  }

  lemma KnownStatusIsInjective(a: string, b: string)
    requires a in KNOWN_STATUS && b in KNOWN_STATUS && KNOWN_STATUS[a] == KNOWN_STATUS[b]
    ensures a == b
  {
  }

  lemma OneLabel(labels: set<string>)
    requires labels != {} && forall a, b :: a in labels && b in labels ==> a == b
    ensures |labels| == 1
  {
    var l :| l in labels;
    assert labels == {l};
  }

  // An issue that never raises, and reports the same status whichever label is taken first.
  ghost predicate ReportsOneStatus(issue: IssueState) {
    !MayRaise(issue) && forall s, t :: MayReport(issue, s) && MayReport(issue, t) ==> s == t
  }

  /** The audit is exactly what the summary of an open issue needs: it is sound if and only if its status
      can never raise and does not depend on which label comes first.  A sound issue has a status, and
      a closed issue needs no audit to have one. */
  lemma AuditMakesStatusTotal(issue: IssueState)
    ensures issue.state == Open ==> (Sound(issue) <==> ReportsOneStatus(issue))
    ensures Sound(issue) || issue.state == Closed ==> ReportsOneStatus(issue) && exists s :: MayReport(issue, s)
  {
    if issue.state == Closed {
      assert MayReport(issue, "closed_complete");
    } else if Sound(issue) {
      var s := ExecutionStatus(issue);
    } else if ReportsOneStatus(issue) {
      StatusesApart(issue);
      OneLabel(SlashLabels(issue));
    }
  }

  lemma StatusesApart(issue: IssueState)
    requires issue.state == Open && ReportsOneStatus(issue)
    ensures SlashLabels(issue) <= KNOWN_STATUS.Keys
    ensures forall a, b :: a in SlashLabels(issue) && b in SlashLabels(issue) ==> a == b
  {
    forall a, b | a in SlashLabels(issue) && b in SlashLabels(issue) ensures a == b {
      assert MayReport(issue, KNOWN_STATUS[a]) && MayReport(issue, KNOWN_STATUS[b]);
      KnownStatusIsInjective(a, b);
    }
  }

  /** With two known labels the status never raises, and depends on which of them comes first. */
  lemma TwoLabelsAreAmbiguous()
    ensures var issue := IssueState(7, Open, {"status/ready", "status/blocked"});
            !Sound(issue) && !MayRaise(issue) && MayReport(issue, "open_ready") && MayReport(issue, "open_blocked")
  {
    var issue := IssueState(7, Open, {"status/ready", "status/blocked"});
    KnownAreGoverned("status/ready");
    KnownAreGoverned("status/blocked");
    var labels := SlashLabels(issue);
    assert "status/ready" in labels && "status/blocked" in labels && labels <= KNOWN_STATUS.Keys;
    assert KNOWN_STATUS["status/ready"] == "open_ready" && KNOWN_STATUS["status/blocked"] == "open_blocked";
    if Sound(issue) { SingletonLabel(labels); }
  }

  datatype Reported = Reported(status: string, number: int)

  ghost predicate AllSound(issues: seq<IssueState>) { forall i :: 0 <= i < |issues| ==> Sound(issues[i]) }

  // What the summary reports of each issue, in order.
  function Reports(issues: seq<IssueState>): (reports: seq<Reported>)
    requires AllSound(issues)
    ensures |reports| == |issues|
    ensures forall i :: 0 <= i < |issues| ==> reports[i] == Reported(ExecutionStatus(issues[i]), issues[i].issueNumber)
  {
    seq(|issues|, i requires 0 <= i < |issues| => Reported(ExecutionStatus(issues[i]), issues[i].issueNumber))
  }

  // The numbers reported under one status, in order.
  ghost function Under(reports: seq<Reported>, status: string): seq<int> {
    if reports == [] then []
    else
      var last := |reports| - 1;
      Under(reports[..last], status) + if reports[last].status == status then [reports[last].number] else []
  }

  ghost predicate Groups(grouped: map<string, seq<int>>, counts: multiset<string>, reports: seq<Reported>) {
    && |counts| == |reports|
    && (forall s :: s in grouped <==> Under(reports, s) != [])
    && (forall s :: s in grouped ==> grouped[s] == Under(reports, s))
    && (forall s :: counts[s] == |Under(reports, s)|)
  }

  method AddReport(grouped: map<string, seq<int>>, counts: multiset<string>, next: Reported, ghost done: seq<Reported>)
      returns (more: map<string, seq<int>>, counted: multiset<string>)
    requires Groups(grouped, counts, done)
    ensures Groups(more, counted, done + [next])
  {
    more := grouped[next.status := (if next.status in grouped then grouped[next.status] else []) + [next.number]];
    counted := counts + multiset{next.status};
  }

  method GroupReports(reports: seq<Reported>) returns (grouped: map<string, seq<int>>, counts: multiset<string>)
    ensures Groups(grouped, counts, reports)
  {
    grouped, counts := map[], multiset{};
    ghost var done: seq<Reported> := [];
    for i := 0 to |reports|
      invariant done == reports[..i]
      invariant Groups(grouped, counts, done)
    {
      grouped, counts := AddReport(grouped, counts, reports[i], done);
      done := done + [reports[i]];
    }
    assert done == reports;
  }

  predicate NotAbove(a: int, b: int) { a <= b }

  // Each status that is reported at all has exactly its own numbers, in ascending order.
  ghost predicate Partitions(grouped: map<string, seq<int>>, reports: seq<Reported>) {
    && (forall s :: s in grouped <==> exists i :: 0 <= i < |reports| && reports[i].status == s)
    && (forall s :: s in grouped ==>
          multiset(grouped[s]) == multiset(Under(reports, s)) && Sorted(grouped[s], NotAbove))
  }

  lemma {:induction false} UnderIsEmptyExactly(reports: seq<Reported>, status: string)
    ensures Under(reports, status) != [] <==> exists i :: 0 <= i < |reports| && reports[i].status == status
  {
    if reports != [] {
      var init := reports[..|reports| - 1];
      UnderIsEmptyExactly(init, status);
      assert forall i :: 0 <= i < |init| ==> init[i] == reports[i];
    }
  }

  function SortGroups(listed: map<string, seq<int>>): map<string, seq<int>> {
    map s | s in listed :: SortBy(listed[s], NotAbove)
  }

  lemma SortedGroup(listed: map<string, seq<int>>, counts: multiset<string>, reports: seq<Reported>, s: string)
    requires Groups(listed, counts, reports)
    ensures var grouped := SortGroups(listed);
            && (s in grouped <==> exists i :: 0 <= i < |reports| && reports[i].status == s)
            && (s in grouped ==>
                  multiset(grouped[s]) == multiset(Under(reports, s)) && Sorted(grouped[s], NotAbove))
            && counts[s] == if s in grouped then |grouped[s]| else 0
  {
    UnderIsEmptyExactly(reports, s);
    if s in listed {
      SortPermutes(listed[s], NotAbove);
      SortSorts(listed[s], NotAbove);
    }
  }

  method SortReports(reports: seq<Reported>) returns (grouped: map<string, seq<int>>, counts: multiset<string>)
    ensures Partitions(grouped, reports)
    ensures |counts| == |reports|
    ensures forall s :: counts[s] == if s in grouped then |grouped[s]| else 0
  {
    var listed;
    listed, counts := GroupReports(reports);
    grouped := SortGroups(listed);
    forall s { SortedGroup(listed, counts, reports, s); }
  }

  /** Grouping by status is a partition: each group holds exactly the numbers of its own issues, in
      order, the counts are the sizes of the groups, and they add up to the number of issues. */
  method LiveIssuesByStatus(issues: seq<IssueState>) returns (grouped: map<string, seq<int>>, counts: multiset<string>)
    requires AllSound(issues)
    ensures Partitions(grouped, Reports(issues))
    ensures |counts| == |issues|
    ensures forall s :: counts[s] == if s in grouped then |grouped[s]| else 0
  {
    grouped, counts := SortReports(Reports(issues));
  }

  // The posture gate passes an open issue whose only status label is a governed one.
  ghost predicate GatePasses(labels: seq<string>) { exists g :: g in GOVERNED_OPEN && OnlyStatus(labels, g) }

  // Some label has the form status:….
  ghost predicate HasColonStatus(labels: seq<string>) { exists l :: l in labels && StartsWith(l, "status:") }

  /** The lifecycle audit and the posture gate do not govern the same labels.  On an open issue they
      agree exactly when the issue is neither one that the audit finds sound although it also carries a
      status: label, nor one whose only status label is status/merged-to-main. */
  lemma AuditAgainstGate(issue: IssueState, labels: seq<string>)
    requires issue.state == Open && forall l :: l in labels <==> l in issue.labels
    ensures (Sound(issue) <==> GatePasses(labels)) <==>
              !(Sound(issue) && HasColonStatus(labels)) && !OnlyStatus(labels, "status/merged-to-main")
  {
    BothPass(issue, labels);
    if OnlyStatus(labels, "status/merged-to-main") { MergedToMainIsUnknown(issue, labels); }
    if GatePasses(labels) {
      var g :| g in GOVERNED_OPEN && OnlyStatus(labels, g);
      GovernedHasNoColon(labels, g);
      if g != "status/merged-to-main" { GovernedAreKnown(g); }
    }
  }

  // Both pass an open issue exactly when its only status label is one that both govern.
  lemma BothPass(issue: IssueState, labels: seq<string>)
    requires issue.state == Open && forall l :: l in labels <==> l in issue.labels
    ensures Sound(issue) && !HasColonStatus(labels) <==>
              exists g :: g in GOVERNED_OPEN && g in KNOWN_STATUS && OnlyStatus(labels, g)
  {
    var status := SlashLabels(issue);
    if Sound(issue) && !HasColonStatus(labels) {
      SingletonLabel(status);
      var g :| g in status;
      KnownAreGoverned(g);
      forall l ensures l in labels && IsStatusLabel(l) <==> l == g {
        if l in labels && IsStatusLabel(l) { assert l in status; }
      }
    }
    if g :| g in GOVERNED_OPEN && g in KNOWN_STATUS && OnlyStatus(labels, g) {
      KnownAreGoverned(g);
      assert status == {g};
      GovernedHasNoColon(labels, g);
    }
  }

  lemma GovernedHasNoColon(labels: seq<string>, g: string)
    requires g in GOVERNED_OPEN && OnlyStatus(labels, g)
    ensures !HasColonStatus(labels)
  {
    SlashIsNoColon(g);
    forall l | l in labels ensures !StartsWith(l, "status:") {
      assert IsStatusLabel(l) ==> l == g;
    }
  }

  lemma SlashIsNoColon(g: string)
    requires g in GOVERNED_OPEN
    ensures StartsWith(g, "status/") && !StartsWith(g, "status:")
  {
    assert "status/"[6] == '/' && "status:"[6] == ':' && g[6] == '/';
  }

  lemma GovernedAreKnown(g: string)
    requires g in GOVERNED_OPEN && g != "status/merged-to-main"
    ensures g in KNOWN_STATUS
  {
  }

  lemma MergedToMainIsUnknown(issue: IssueState, labels: seq<string>)
    requires OnlyStatus(labels, "status/merged-to-main") && forall l :: l in labels <==> l in issue.labels
    ensures !Sound(issue) && GatePasses(labels)
  {
    assert StartsWith("status/merged-to-main", "status/");
    assert "status/merged-to-main" in SlashLabels(issue);
  }

  /** An issue that is ready and also carries a status: label is sound for the audit and refused by the gate. */
  lemma AuditAloneIsContent()
    ensures var issue := IssueState(7, Open, {"status/ready", "status:x"});
            Sound(issue) && !GatePasses(["status/ready", "status:x"])
  {
    var issue := IssueState(7, Open, {"status/ready", "status:x"});
    assert "status/ready"[6] == '/' && "status:x"[6] == ':' && "status/"[6] == '/';
    assert SlashLabels(issue) == {"status/ready"};
    var labels := ["status/ready", "status:x"];
    assert labels[1] in labels && StartsWith("status:x", "status:");
    forall g | g in GOVERNED_OPEN ensures !OnlyStatus(labels, g) {
      if OnlyStatus(labels, g) { GovernedHasNoColon(labels, g); }
    }
  }

  /** An issue marked status/merged-to-main passes the gate and is a fault for the audit. */
  lemma GateAloneIsContent()
    ensures var issue := IssueState(7, Open, {"status/merged-to-main"});
            !Sound(issue) && GatePasses(["status/merged-to-main"])
  {
    var labels := ["status/merged-to-main"];
    assert StartsWith("status/merged-to-main", "status/");
    assert forall l :: l in labels <==> l == labels[0];
    MergedToMainIsUnknown(IssueState(7, Open, {"status/merged-to-main"}), labels);
  }

  /** Without an audit the execution status of an open issue may raise: one without a status label has
      none to take, and a label that is not known has no status. */
  lemma UnauditedMayRaise()
    ensures MayRaise(IssueState(7, Open, {RFC_LABEL}))
    ensures MayRaise(IssueState(7, Open, {"status/merged-to-main"}))
  {
    assert RFC_LABEL[0] == 'r' && "status/"[0] == 's';
    assert StartsWith("status/merged-to-main", "status/");
    assert "status/merged-to-main" in SlashLabels(IssueState(7, Open, {"status/merged-to-main"}));
  }

  lemma KnownAreGoverned(g: string)
    requires g in KNOWN_STATUS
    ensures g in GOVERNED_OPEN && StartsWith(g, "status/") && !StartsWith(g, "status:")
  {
    assert "status/"[6] == '/' && "status:"[6] == ':';
  }
}

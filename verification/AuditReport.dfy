/** The audit over a range of commits: grouping the listing, auditing each revision, and the exit code. */
module AuditReport {
  import opened Common
  import opened AuditVerdict
  import opened AuditListing
  import opened Sorting

  datatype Label = Label(state: string, attempt: int)

  datatype RevisionVerdict = RevisionVerdict(
    sha: string, classification: Classification, runStates: seq<Label>)

  datatype Summary = Summary(
    audited: nat, verdict: nat, unverifiable: nat, ungated: nat, unknown: nat, passing: nat, failing: nat)

  // What can be read about the workflow's runs: all of them as they are when the bulk listing is read
  // and when each revision is re-checked, and which of these reads succeed.
  datatype Host = Host(
    atListing: seq<ListedRun>, listingReadable: bool,
    atRecheck: string -> seq<ListedRun>, recheckReadable: string -> bool)

  function RunsForRevision(host: Host, sha: string, limit: nat): Option<RunHistory> {
    if host.recheckReadable(sha) then Some(Recheck(host.atRecheck(sha), sha, limit)) else None
  }

  function Labels(runs: seq<RunEvidence>): (labels: seq<Label>)
    ensures |labels| == |runs|
    ensures forall i :: 0 <= i < |runs| ==> labels[i] == Label(runs[i].state, runs[i].attempt)
  {
    seq(|runs|, i requires 0 <= i < |runs| => Label(runs[i].state, runs[i].attempt))
  }

  // What the audit says of one revision, given what it reads.
  function Audited(sha: string, listing: Option<map<string, seq<RunEvidence>>>, recheck: Option<RunHistory>)
      : RevisionVerdict {
    var history := HistoryForRevision(sha, listing, recheck);
    RevisionVerdict(sha, Classify(history), Labels(if history.Some? then SortRuns(history.value.runs) else []))
  }

  method ListWorkflowRuns(host: Host, limit: nat)
      returns (listing: Option<(map<string, seq<RunEvidence>>, bool)>)
    ensures listing.Some? <==> host.listingReadable
    ensures listing.Some? ==> Groups(listing.value.0, Truncate(host.atListing, limit))
    ensures listing.Some? ==> (listing.value.1 <==> limit <= |host.atListing|)
  {
    if !host.listingReadable { return None; }
    var runs := Truncate(host.atListing, limit);
    var grouped: map<string, seq<RunEvidence>> := map[];
    for i := 0 to |runs|
      invariant Groups(grouped, runs[..i])
    {
      var sha := runs[i].headSha;
      assert runs[..i + 1] == runs[..i] + [runs[i]];
      forall other ensures OfRevision(runs[..i + 1], other) == OfRevision(runs[..i], other) + OfRevision([runs[i]], other) {
        OfRevisionConcat(runs[..i], [runs[i]], other);
      }
      if sha != "" {
        grouped := grouped[sha := (if sha in grouped then grouped[sha] else []) + [runs[i].evidence]];
      }
    }
    assert runs[..|runs|] == runs;
    listing := Some((grouped, |runs| >= limit));
  }

  ghost predicate Reports(
      commits: seq<string>, listing: Option<map<string, seq<RunEvidence>>>, host: Host, revisionLimit: nat,
      verdicts: seq<RevisionVerdict>)
  {
    && |verdicts| == |commits|
    && forall i :: 0 <= i < |commits| ==>
         verdicts[i] == Audited(commits[i], listing, RunsForRevision(host, commits[i], revisionLimit))
  }

  method AuditRevision(
      sha: string, listing: Option<map<string, seq<RunEvidence>>>, host: Host, revisionLimit: nat)
      returns (verdict: RevisionVerdict)
    ensures verdict == Audited(sha, listing, RunsForRevision(host, sha, revisionLimit))
  {
    var listed := if listing.Some? && sha in listing.value then listing.value[sha] else [];
    var history :=
      if AnyVerdict(listed) then Some(RunHistory(listed, true)) else RunsForRevision(host, sha, revisionLimit);
    var ordered := if history.Some? then SortRuns(history.value.runs) else [];
    verdict := RevisionVerdict(sha, Classify(history), Labels(ordered));
  }

  method AuditRevisions(
      commits: seq<string>, listing: Option<map<string, seq<RunEvidence>>>, host: Host, revisionLimit: nat)
      returns (verdicts: seq<RevisionVerdict>)
    ensures Reports(commits, listing, host, revisionLimit, verdicts)
  {
    verdicts := [];
    ghost var done: seq<string> := [];
    for i := 0 to |commits|
      invariant done == commits[..i]
      invariant Reports(done, listing, host, revisionLimit, verdicts)
    {
      var verdict := AuditRevision(commits[i], listing, host, revisionLimit);
      verdicts := verdicts + [verdict];
      done := done + [commits[i]];
    }
    assert done == commits;
  }

  /***** Summary and exit code *****/

  function Count(verdicts: seq<RevisionVerdict>, p: RevisionVerdict -> bool): nat {
    if verdicts == [] then 0
    else
      var last := |verdicts| - 1;
      Count(verdicts[..last], p) + if p(verdicts[last]) then 1 else 0
  }

  lemma {:induction false} CountsPlaces(verdicts: seq<RevisionVerdict>, p: RevisionVerdict -> bool)
    ensures Count(verdicts, p) == |Places(verdicts, p)|
  {
    if verdicts == [] {
      assert Places(verdicts, p) == {};
    } else {
      var last := |verdicts| - 1;
      assert verdicts == verdicts[..last] + [verdicts[last]];
      CountsPlaces(verdicts[..last], p);
      PlacesGrow(verdicts[..last], verdicts[last], p);
    }
  }

  function Covers(coverage: Coverage): RevisionVerdict -> bool { (v: RevisionVerdict) => v.classification.coverage == coverage }

  function EndsIn(outcome: Outcome): RevisionVerdict -> bool { (v: RevisionVerdict) => v.classification.outcome == Some(outcome) }

  function Summarize(verdicts: seq<RevisionVerdict>): Summary {
    Summary(
      |verdicts|,
      Count(verdicts, Covers(Verdict)),
      Count(verdicts, Covers(Unverifiable)),
      Count(verdicts, Covers(Ungated)),
      Count(verdicts, Covers(Unknown)),
      Count(verdicts, EndsIn(Pass)),
      Count(verdicts, EndsIn(Fail)))
  }

  // The positions of the verdicts with this coverage, and with this outcome.
  ghost function Covered(verdicts: seq<RevisionVerdict>, coverage: Coverage): set<nat> {
    set i: nat | i < |verdicts| && verdicts[i].classification.coverage == coverage
  }

  ghost function Ending(verdicts: seq<RevisionVerdict>, outcome: Outcome): set<nat> {
    set i: nat | i < |verdicts| && verdicts[i].classification.outcome == Some(outcome)
  }

  /** Each of the seven counts is the number of verdicts that it is named after. */
  lemma SummaryCounts(verdicts: seq<RevisionVerdict>)
    ensures Summarize(verdicts) ==
            Summary(|verdicts|, |Covered(verdicts, Verdict)|, |Covered(verdicts, Unverifiable)|, |Covered(verdicts, Ungated)|,
                    |Covered(verdicts, Unknown)|, |Ending(verdicts, Pass)|, |Ending(verdicts, Fail)|)
  {
    forall coverage ensures Count(verdicts, Covers(coverage)) == |Covered(verdicts, coverage)| {
      CountsPlaces(verdicts, Covers(coverage));
      assert Covered(verdicts, coverage) == Places(verdicts, Covers(coverage));
    }
    forall outcome ensures Count(verdicts, EndsIn(outcome)) == |Ending(verdicts, outcome)| {
      CountsPlaces(verdicts, EndsIn(outcome));
      assert Ending(verdicts, outcome) == Places(verdicts, EndsIn(outcome));
    }
  }

  // Verdicts as the audit makes them carry an outcome exactly when they cover their revision.
  ghost predicate Consistent(verdicts: seq<RevisionVerdict>) {
    forall i :: 0 <= i < |verdicts| ==>
      (verdicts[i].classification.coverage == Verdict <==> verdicts[i].classification.outcome.Some?)
  }

  /** Conservation: every revision is counted under one coverage, and every verdict under one outcome. */
  lemma {:induction false} SummaryConserves(verdicts: seq<RevisionVerdict>)
    requires Consistent(verdicts)
    ensures var s := Summarize(verdicts);
            && s.verdict + s.unverifiable + s.ungated + s.unknown == s.audited
            && s.passing + s.failing == s.verdict
            && (s.verdict == s.audited <==>
                  forall i :: 0 <= i < |verdicts| ==> verdicts[i].classification.coverage == Verdict)
  {
    if verdicts != [] {
      var last := |verdicts| - 1;
      var rest := verdicts[..last];
      assert Consistent(rest);
      SummaryConserves(rest);
      var c := verdicts[last].classification;
      assert c.coverage in {Verdict, Unverifiable, Ungated, Unknown};
      assert c.outcome in {None, Some(Pass), Some(Fail)} by {
        if c.outcome.Some? { match c.outcome.value case Pass => case Fail => }
      }
      assert forall i :: 0 <= i < last ==> verdicts[i] == rest[i];
    }
  }

  // The runs behind a verdict: those listed for the revision when they show a verdict, and otherwise those
  // of its re-check.
  ghost function RunsBehind(host: Host, listingLimit: nat, revisionLimit: nat, sha: string): seq<RunEvidence> {
    if ShownBy(host, listingLimit, sha) then OfRevision(Truncate(host.atListing, listingLimit), sha)
    else if host.recheckReadable(sha) then Truncate(OfRevision(host.atRecheck(sha), sha), revisionLimit)
    else []
  }

  // The labels are those of the runs, oldest first; runs of one key stay in the order they were listed in.
  ghost predicate Labelled(labels: seq<Label>, runs: seq<RunEvidence>) {
    exists ordered: seq<RunEvidence> ::
      && multiset(ordered) == multiset(runs) && |labels| == |ordered|
      && (forall i, j :: 0 <= i < j < |ordered| ==> !IsOlder(ordered[j], ordered[i]))
      && (forall r :: Filter(ordered, HasKeyOf(r)) == Filter(runs, HasKeyOf(r)))
      && forall i :: 0 <= i < |ordered| ==> labels[i].state == ordered[i].state && labels[i].attempt == ordered[i].attempt
  }

  ghost function HasKeyOf(r: RunEvidence): RunEvidence -> bool {
    (x: RunEvidence) => x.createdAt == r.createdAt && x.runId == r.runId
  }

  lemma SortedAreLabelled(runs: seq<RunEvidence>)
    ensures Labelled(Labels(SortRuns(runs)), runs)
  {
    var ordered := SortRuns(runs);
    SortRunsSorts(runs);
    forall i, j | 0 <= i < j < |ordered| ensures !IsOlder(ordered[j], ordered[i]) {
      NotAfterExactly(ordered[j], ordered[i]);
    }
    forall r ensures Filter(ordered, HasKeyOf(r)) == Filter(runs, HasKeyOf(r)) {
      SortIsStable(runs, NotAfter, HasKeyOf(r));
    }
  }

  lemma AuditedRuns(
      sha: string, listing: Option<map<string, seq<RunEvidence>>>, host: Host, listingLimit: nat, revisionLimit: nat)
    requires IsListing(listing, host, listingLimit)
    ensures var v := Audited(sha, listing, RunsForRevision(host, sha, revisionLimit));
            v.sha == sha && Labelled(v.runStates, RunsBehind(host, listingLimit, revisionLimit, sha))
  {
    ShownDecides(listing, Truncate(host.atListing, listingLimit), RunsForRevision(host, sha, revisionLimit), sha);
    SortedAreLabelled(RunsBehind(host, listingLimit, revisionLimit, sha));
    assert Labels(SortRuns([])) == [];
  }

  // The classification in terms of the complete histories behind the reads.  Coverage is theirs, or
  // unknown; outcome and notes are, for a newest-first history whose left-out runs agree.
  ghost predicate SoundAt(host: Host, listingLimit: nat, revisionLimit: nat, v: RevisionVerdict) {
    if ShownBy(host, listingLimit, v.sha) then
      && v.classification.coverage == Verdict && FullVerdict(host.atListing, v.sha).coverage == Verdict
      && IsRefined(v.classification, host.atListing, v.sha, ListedLength(host.atListing, listingLimit, v.sha))
    else if Hidden(host.atRecheck(v.sha), revisionLimit, host.recheckReadable(v.sha), v.sha) then
      v.classification.coverage == Unknown
    else
      && v.classification.coverage != Unknown
      && v.classification.coverage == FullVerdict(host.atRecheck(v.sha), v.sha).coverage
      && IsRefined(v.classification, host.atRecheck(v.sha), v.sha,
                   |Truncate(OfRevision(host.atRecheck(v.sha), v.sha), revisionLimit)|)
  }

  ghost predicate ShownBy(host: Host, listingLimit: nat, sha: string) {
    host.listingReadable && sha != "" && HasVerdict(OfRevision(Truncate(host.atListing, listingLimit), sha))
  }

  ghost predicate IsRefined(c: Classification, all: seq<ListedRun>, sha: string, k: nat) {
    NewestFirst(OfRevision(all, sha)) ==> (c == FullVerdict(all, sha) <==> CutAgrees(OfRevision(all, sha), k))
  }

  ghost predicate Sound(host: Host, listingLimit: nat, revisionLimit: nat, verdicts: seq<RevisionVerdict>) {
    forall i :: 0 <= i < |verdicts| ==>
      && SoundAt(host, listingLimit, revisionLimit, verdicts[i])
      && Labelled(verdicts[i].runStates, RunsBehind(host, listingLimit, revisionLimit, verdicts[i].sha))
  }

  lemma ReportsAreConsistent(
      commits: seq<string>, listing: Option<map<string, seq<RunEvidence>>>, host: Host, revisionLimit: nat,
      verdicts: seq<RevisionVerdict>)
    requires Reports(commits, listing, host, revisionLimit, verdicts)
    ensures Consistent(verdicts)
  {
    forall i | 0 <= i < |verdicts|
      ensures verdicts[i].classification.coverage == Verdict <==> verdicts[i].classification.outcome.Some?
    {
      assert Consistent([verdicts[i]]) && [verdicts[i]][0] == verdicts[i];
    }
  }

  // One refinement without its order assumption, whichever read it is about.
  lemma AuditedIsSound(
      sha: string, listing: Option<map<string, seq<RunEvidence>>>, host: Host, listingLimit: nat, revisionLimit: nat)
    requires IsListing(listing, host, listingLimit)
    ensures SoundAt(host, listingLimit, revisionLimit, Audited(sha, listing, RunsForRevision(host, sha, revisionLimit)))
  {
    var atRecheck := host.atRecheck(sha);
    FastPathCoverage(host.atListing, atRecheck, listing, listingLimit, revisionLimit, host.recheckReadable(sha), sha);
    if ShownBy(host, listingLimit, sha) {
      if NewestFirst(OfRevision(host.atListing, sha)) {
        ShownRefines(host.atListing, listing, listingLimit, RunsForRevision(host, sha, revisionLimit), sha);
      }
    } else if NewestFirst(OfRevision(atRecheck, sha)) {
      ShownDecides(listing, Truncate(host.atListing, listingLimit), RunsForRevision(host, sha, revisionLimit), sha);
      RecheckRefines(atRecheck, sha, revisionLimit);
    }
  }

  lemma ReportsAreSound(
      commits: seq<string>, listing: Option<map<string, seq<RunEvidence>>>, host: Host, listingLimit: nat,
      revisionLimit: nat, verdicts: seq<RevisionVerdict>)
    requires Reports(commits, listing, host, revisionLimit, verdicts) && IsListing(listing, host, listingLimit)
    ensures Sound(host, listingLimit, revisionLimit, verdicts)
  {
    forall i | 0 <= i < |verdicts|
      ensures SoundAt(host, listingLimit, revisionLimit, verdicts[i])
      ensures Labelled(verdicts[i].runStates, RunsBehind(host, listingLimit, revisionLimit, verdicts[i].sha))
    {
      AuditedIsSound(commits[i], listing, host, listingLimit, revisionLimit);
      AuditedRuns(commits[i], listing, host, listingLimit, revisionLimit);
    }
  }

  // The verdicts that the audit gives to the commits from what it can read.
  ghost predicate ReportsFrom(
      commits: seq<string>, host: Host, listingLimit: nat, revisionLimit: nat, verdicts: seq<RevisionVerdict>)
  {
    exists listing: Option<map<string, seq<RunEvidence>>> ::
      IsListing(listing, host, listingLimit) && Reports(commits, listing, host, revisionLimit, verdicts)
  }

  ghost predicate IsListing(listing: Option<map<string, seq<RunEvidence>>>, host: Host, listingLimit: nat) {
    if host.listingReadable then listing.Some? && Groups(listing.value, Truncate(host.atListing, listingLimit))
    else listing == None
  }

  /** The whole audit.  With --fail-on-gap it succeeds exactly when it could run and every audited
      revision got a verdict.  Every coverage but unknown is that of the complete history, whatever the
      order of the runs; outcome and notes are, when that history is newest first and the runs that a
      limit left out do not tie with the deciding ones and disagree. */
  method RunAudit(
      failOnGap: bool, ghPresent: bool, baseline: Option<bool>, commits: seq<string>,
      host: Host, listingLimit: nat, revisionLimit: nat)
      returns (exit: int, verdicts: seq<RevisionVerdict>, summary: Summary)
    ensures exit == 0 || exit == 1
    ensures !failOnGap ==> exit == 0
    ensures failOnGap ==>
              (exit == 0 <==>
                 && ghPresent && baseline != Some(false)
                 && (commits == [] ==> baseline.Some?)
                 && forall i :: 0 <= i < |verdicts| ==> verdicts[i].classification.coverage == Verdict)
    ensures var ran := ghPresent && baseline != Some(false);
            |verdicts| == (if ran then |commits| else 0)
    ensures verdicts != [] ==> ReportsFrom(commits, host, listingLimit, revisionLimit, verdicts)
    ensures summary ==
            Summary(|verdicts|, |Covered(verdicts, Verdict)|, |Covered(verdicts, Unverifiable)|, |Covered(verdicts, Ungated)|,
                    |Covered(verdicts, Unknown)|, |Ending(verdicts, Pass)|, |Ending(verdicts, Fail)|)
    ensures forall i :: 0 <= i < |verdicts| ==> verdicts[i].sha == commits[i]
    ensures summary.audited == |verdicts|
    ensures summary.verdict + summary.unverifiable + summary.ungated + summary.unknown == summary.audited
    ensures summary.passing + summary.failing == summary.verdict
    ensures Sound(host, listingLimit, revisionLimit, verdicts)
  {
    verdicts, summary := [], Summarize([]);
    SummaryCounts([]);
    // The baseline, when one is given, must be an ancestor of the end of the range.
    if !ghPresent || baseline == Some(false) {
      return if failOnGap then 1 else 0, verdicts, summary;
    }
    if commits == [] {
      return if failOnGap && baseline.None? then 1 else 0, verdicts, summary;
    }
    var listed := ListWorkflowRuns(host, listingLimit);
    var listing := if listed.Some? then Some(listed.value.0) else None;
    verdicts := AuditRevisions(commits, listing, host, revisionLimit);
    assert IsListing(listing, host, listingLimit);
    summary := Summarize(verdicts);
    ReportsAreConsistent(commits, listing, host, revisionLimit, verdicts);
    ReportsAreSound(commits, listing, host, listingLimit, revisionLimit, verdicts);
    SummaryConserves(verdicts);
    SummaryCounts(verdicts);
    var gap := exists i :: 0 <= i < |verdicts| && verdicts[i].classification.coverage != Verdict;
    exit := if failOnGap && gap then 1 else 0;
  }
}

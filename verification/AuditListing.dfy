/** The fast path of the audit: one truncated listing over all revisions, and a bounded re-check of
    a revision that shows no verdict in it.  What coverage they give needs no assumption on the order
    of the runs; what outcome and notes they give needs listings that are newest first. */
module AuditListing {
  import opened Common
  import opened AuditVerdict

  datatype ListedRun = ListedRun(headSha: string, evidence: RunEvidence)

  // The runs of one revision, in listing order.
  function OfRevision(listing: seq<ListedRun>, sha: string): (runs: seq<RunEvidence>)
    ensures |runs| <= |listing|
  {
    if listing == [] then []
    else (if listing[0].headSha == sha then [listing[0].evidence] else []) + OfRevision(listing[1..], sha)
  }

  function Truncate<T>(s: seq<T>, limit: nat): seq<T> { if limit < |s| then s[..limit] else s }

  function Recheck(all: seq<ListedRun>, sha: string, limit: nat): RunHistory {
    var evidence := Truncate(OfRevision(all, sha), limit);
    RunHistory(evidence, |evidence| < limit)
  }

  predicate AnyVerdict(runs: seq<RunEvidence>) { exists i :: 0 <= i < |runs| && IsVerdict(runs[i]) }

  function HistoryForRevision(
      sha: string, listing: Option<map<string, seq<RunEvidence>>>, recheck: Option<RunHistory>): Option<RunHistory> {
    var listed := if listing.Some? && sha in listing.value then listing.value[sha] else [];
    if AnyVerdict(listed) then Some(RunHistory(listed, true)) else recheck
  }

  // What the grouping of a listing must hold: every named revision with its runs, in order.
  ghost predicate Groups(grouped: map<string, seq<RunEvidence>>, listing: seq<ListedRun>) {
    && (forall sha :: sha in grouped <==> sha != "" && OfRevision(listing, sha) != [])
    && (forall sha :: sha in grouped ==> grouped[sha] == OfRevision(listing, sha))
  }

  /***** Newest-first listings and their cuts *****/

  ghost predicate ListingNewestFirst(all: seq<ListedRun>) {
    forall i, j :: 0 <= i < j < |all| ==> NotAfter(all[j].evidence, all[i].evidence)
  }

  // Run ids are database identities: no two runs share one.
  ghost predicate DistinctIds(all: seq<ListedRun>) {
    forall i, j :: 0 <= i < j < |all| ==> all[i].evidence.runId != all[j].evidence.runId
  }

  // Every run of tail is strictly older than every run of head.
  ghost predicate CleanCut(head: seq<RunEvidence>, tail: seq<RunEvidence>) {
    forall h, t :: h in head && t in tail ==> Before(t, h)
  }

  lemma {:induction false} OfRevisionConcat(a: seq<ListedRun>, b: seq<ListedRun>, sha: string)
    ensures OfRevision(a + b, sha) == OfRevision(a, sha) + OfRevision(b, sha)
  {
    if a == [] {
      assert a + b == b;
    } else {
      var first := if a[0].headSha == sha then [a[0].evidence] else [];
      OfRevisionConcat(a[1..], b, sha);
      assert (a + b)[0] == a[0] && (a + b)[1..] == a[1..] + b;
      assert OfRevision(a + b, sha) == first + OfRevision(a[1..] + b, sha);
      assert first + (OfRevision(a[1..], sha) + OfRevision(b, sha)) == first + OfRevision(a[1..], sha) + OfRevision(b, sha);
    }
  }

  lemma {:induction false} OfRevisionMember(all: seq<ListedRun>, sha: string, r: RunEvidence)
    ensures r in OfRevision(all, sha) <==> exists i :: 0 <= i < |all| && all[i] == ListedRun(sha, r)
  {
    if all != [] {
      OfRevisionMember(all[1..], sha, r);
      if r in OfRevision(all[1..], sha) {
        var i :| 0 <= i < |all[1..]| && all[1..][i] == ListedRun(sha, r);
        assert all[i + 1] == ListedRun(sha, r);
      }
      if i :| 1 <= i < |all| && all[i] == ListedRun(sha, r) {
        assert all[1..][i - 1] == ListedRun(sha, r);
      }
      if all[0] == ListedRun(sha, r) { assert OfRevision(all, sha)[0] == r; }
    }
  }

  lemma {:induction false} RevisionCutIsClean(all: seq<ListedRun>, sha: string, k: nat)
    requires ListingNewestFirst(all) && DistinctIds(all) && k <= |OfRevision(all, sha)|
    ensures CleanCut(OfRevision(all, sha)[..k], OfRevision(all, sha)[k..])
  {
    if all != [] {
      var rest := all[1..];
      var history := OfRevision(all, sha);
      if all[0].headSha != sha {
        RevisionCutIsClean(rest, sha, k);
      } else if k > 0 {
        RevisionCutIsClean(rest, sha, k - 1);
        assert history[..k] == [all[0].evidence] + OfRevision(rest, sha)[..k - 1];
        assert history[k..] == OfRevision(rest, sha)[k - 1..];
        forall t | t in history[k..] ensures Before(t, all[0].evidence) {
          OfRevisionMember(rest, sha, t);
          var j :| 0 <= j < |rest| && rest[j] == ListedRun(sha, t);
          assert all[j + 1].evidence == t;
        }
      }
    }
  }

  /***** What a cut can change *****/

  ghost predicate NewestFirst(runs: seq<RunEvidence>) {
    forall i, j :: 0 <= i < j < |runs| ==> NotAfter(runs[j], runs[i])
  }

  // No run of tail is newer than a run of head.
  ghost predicate NoneNewer(head: seq<RunEvidence>, tail: seq<RunEvidence>) {
    forall h, t :: h in head && t in tail ==> NotAfter(t, h)
  }

  // A deciding run of tail says nothing that a deciding run of head does not say.
  ghost predicate TiesAgree(head: seq<RunEvidence>, tail: seq<RunEvidence>) {
    forall t :: t in tail && Latest(head + tail, t) ==> SaidBy(head, t)
  }

  ghost predicate SaidBy(head: seq<RunEvidence>, t: RunEvidence) {
    HasOutcome(head, OutcomeOf(t)) && (t.attempt > 1 ==> HasRerun(head))
  }

  ghost predicate HasOutcome(runs: seq<RunEvidence>, o: Outcome) { exists h :: Latest(runs, h) && OutcomeOf(h) == o }

  ghost predicate HasRerun(runs: seq<RunEvidence>) { exists h :: Latest(runs, h) && h.attempt > 1 }

  ghost function OutcomesOf(runs: seq<RunEvidence>): set<Outcome> { set r | r in runs :: OutcomeOf(r) }

  ghost predicate AnyRerun(runs: seq<RunEvidence>) { exists r :: r in runs && r.attempt > 1 }

  // The decision tells which outcomes there are, and whether there is a rerun.
  lemma DecisionTells(x: seq<RunEvidence>)
    requires x != [] && forall r :: r in x ==> IsVerdict(r)
    ensures Pass in OutcomesOf(x) <==> Decide(x).outcome == Some(Pass) || AmbiguousOrder in Decide(x).notes
    ensures Fail in OutcomesOf(x) <==> Decide(x).outcome != Some(Pass)
    ensures AnyRerun(x) <==> RerunVerdict in Decide(x).notes
  {
    DecideExact(x);
    assert OutcomeOf(x[0]) in OutcomesOf(x);
    assert Pass in OutcomesOf(x) <==> exists r :: r in x && r.state == "success";
    assert Fail in OutcomesOf(x) <==> exists r :: r in x && r.state != "success";
  }

  lemma DecideExactly(x: seq<RunEvidence>, y: seq<RunEvidence>)
    requires x != [] && y != [] && (forall r :: r in x ==> IsVerdict(r)) && (forall r :: r in y ==> IsVerdict(r))
    ensures Decide(x) == Decide(y) <==> OutcomesOf(x) == OutcomesOf(y) && (AnyRerun(x) <==> AnyRerun(y))
  {
    DecisionTells(x);
    DecisionTells(y);
    forall o | o in OutcomesOf(x) + OutcomesOf(y) ensures o == Pass || o == Fail { match o case Pass => case Fail => }
  }

  lemma DecidersSay(runs: seq<RunEvidence>)
    ensures forall o :: o in OutcomesOf(LatestTerminal(runs)) <==> HasOutcome(runs, o)
    ensures AnyRerun(LatestTerminal(runs)) <==> HasRerun(runs)
    ensures LatestTerminal(runs) != [] <==> HasVerdict(runs)
    ensures forall r :: r in LatestTerminal(runs) ==> IsVerdict(r)
  {
    LatestTerminalExact(runs);
  }

  lemma TiesAreSaid(head: seq<RunEvidence>, tail: seq<RunEvidence>)
    requires NoneNewer(head, tail)
    ensures forall o :: HasOutcome(head, o) ==> HasOutcome(head + tail, o)
    ensures HasRerun(head) ==> HasRerun(head + tail)
    ensures TiesAgree(head, tail) <==>
              && (forall o :: HasOutcome(head + tail, o) ==> HasOutcome(head, o))
              && (HasRerun(head + tail) ==> HasRerun(head))
  {
    if TiesAgree(head, tail) {
      forall o | HasOutcome(head + tail, o) ensures HasOutcome(head, o) {
        var t :| Latest(head + tail, t) && OutcomeOf(t) == o;
      }
      if HasRerun(head + tail) { var t :| Latest(head + tail, t) && t.attempt > 1; }
    }
  }

  lemma CutVerdictExactly(head: seq<RunEvidence>, tail: seq<RunEvidence>, complete: bool)
    requires NoneNewer(head, tail) && HasVerdict(head)
    ensures Classify(Some(RunHistory(head, complete))) == Classify(Some(RunHistory(head + tail, true))) <==>
            TiesAgree(head, tail)
  {
    TiesAreSaid(head, tail);
    DecidersSay(head);
    DecidersSay(head + tail);
    DecideExactly(LatestTerminal(head), LatestTerminal(head + tail));
    assert HasVerdict(head + tail);
  }

  lemma HistoryCut(history: seq<RunEvidence>, k: nat, complete: bool)
    requires k <= |history| && NewestFirst(history) && HasVerdict(history[..k])
    ensures Classify(Some(RunHistory(history[..k], complete))) == Classify(Some(RunHistory(history, true))) <==>
            TiesAgree(history[..k], history[k..])
  {
    assert history == history[..k] + history[k..];
    CutVerdictExactly(history[..k], history[k..], complete);
  }

  /***** The fast path refines the full history *****/

  ghost function FullVerdict(all: seq<ListedRun>, sha: string): Classification {
    Classify(Some(RunHistory(OfRevision(all, sha), true)))
  }

  // The runs left out after the first k of a history change nothing.
  ghost predicate CutAgrees(history: seq<RunEvidence>, k: nat) {
    k <= |history| && TiesAgree(history[..k], history[k..])
  }

  /** The re-check of any history, in whatever order: its coverage is that of the whole history, or
      unknown exactly when the limit hid everything that could decide. */
  lemma RecheckCoverage(all: seq<ListedRun>, sha: string, limit: nat)
    ensures var coverage := Classify(Some(Recheck(all, sha, limit))).coverage;
            var history := OfRevision(all, sha);
            && (coverage == Unknown || coverage == FullVerdict(all, sha).coverage)
            && (coverage == Unknown <==> limit <= |history| && !HasVerdict(Truncate(history, limit)))
  {
    ClassifyExact(Recheck(all, sha, limit));
    ClassifyExact(RunHistory(OfRevision(all, sha), true));
  }

  /** With a newest-first history it gives the whole history's outcome and notes exactly when no run
      that it leaves out ties with the deciding ones and says something else. */
  lemma RecheckRefines(all: seq<ListedRun>, sha: string, limit: nat)
    requires NewestFirst(OfRevision(all, sha))
    ensures var answer := Classify(Some(Recheck(all, sha, limit)));
            var history := OfRevision(all, sha);
            answer.coverage != Unknown ==>
              (answer == FullVerdict(all, sha) <==> CutAgrees(history, |Truncate(history, limit)|))
  {
    var history := OfRevision(all, sha);
    var k := |Truncate(history, limit)|;
    assert Truncate(history, limit) == history[..k];
    if HasVerdict(history[..k]) {
      HistoryCut(history, k, k < limit);
    } else {
      ClassifyExact(Recheck(all, sha, limit));
      assert k < limit ==> history[..k] == history && history[k..] == [];
    }
  }

  // The listing shows a verdict of the revision.
  ghost predicate Shown(grouped: Option<map<string, seq<RunEvidence>>>, listing: seq<ListedRun>, sha: string) {
    grouped.Some? && sha != "" && HasVerdict(OfRevision(listing, sha))
  }

  lemma ShownDecides(
      grouped: Option<map<string, seq<RunEvidence>>>, listing: seq<ListedRun>, recheck: Option<RunHistory>, sha: string)
    requires grouped.Some? ==> Groups(grouped.value, listing)
    ensures HistoryForRevision(sha, grouped, recheck) ==
            if Shown(grouped, listing, sha) then Some(RunHistory(OfRevision(listing, sha), true)) else recheck
  {
  }

  lemma ListingCut(all: seq<ListedRun>, sha: string, k: nat)
    requires k <= |all|
    ensures |OfRevision(all[..k], sha)| <= |OfRevision(all, sha)|
    ensures OfRevision(all[..k], sha) == OfRevision(all, sha)[..|OfRevision(all[..k], sha)|]
  {
    assert all == all[..k] + all[k..];
    OfRevisionConcat(all[..k], all[k..], sha);
  }

  // What the audit makes of a revision whose runs are read at two times, each read being of its own
  // list of all runs.
  ghost function Answer(grouped: Option<map<string, seq<RunEvidence>>>, atRecheck: seq<ListedRun>, revisionLimit: nat,
                  recheckReadable: bool, sha: string): Classification {
    Classify(HistoryForRevision(
      sha, grouped, if recheckReadable then Some(Recheck(atRecheck, sha, revisionLimit)) else None))
  }

  // The re-check could not be read, or its limit hid everything that could decide.
  ghost predicate Hidden(atRecheck: seq<ListedRun>, revisionLimit: nat, recheckReadable: bool, sha: string) {
    var history := OfRevision(atRecheck, sha);
    !recheckReadable || (revisionLimit <= |history| && !HasVerdict(Truncate(history, revisionLimit)))
  }

  /** Coverage, for lists of runs in any order: a verdict shown in the listing is one of the complete
      history; otherwise the re-check gives the coverage of the complete history, or the audit says
      unknown, and exactly when the re-check could not see enough. */
  lemma FastPathCoverage(
      atListing: seq<ListedRun>, atRecheck: seq<ListedRun>, grouped: Option<map<string, seq<RunEvidence>>>,
      listingLimit: nat, revisionLimit: nat, recheckReadable: bool, sha: string)
    requires grouped.Some? ==> Groups(grouped.value, Truncate(atListing, listingLimit))
    ensures var coverage := Answer(grouped, atRecheck, revisionLimit, recheckReadable, sha).coverage;
            if Shown(grouped, Truncate(atListing, listingLimit), sha) then
              coverage == Verdict && FullVerdict(atListing, sha).coverage == Verdict
            else if Hidden(atRecheck, revisionLimit, recheckReadable, sha) then coverage == Unknown
            else coverage != Unknown && coverage == FullVerdict(atRecheck, sha).coverage
  {
    var listing := Truncate(atListing, listingLimit);
    var recheck := if recheckReadable then Some(Recheck(atRecheck, sha, revisionLimit)) else None;
    ShownDecides(grouped, listing, recheck, sha);
    if Shown(grouped, listing, sha) {
      assert listing == atListing[..|listing|];
      ListingCut(atListing, sha, |listing|);
      ClassifyExact(RunHistory(OfRevision(listing, sha), true));
      ClassifyExact(RunHistory(OfRevision(atListing, sha), true));
    } else if recheckReadable {
      RecheckCoverage(atRecheck, sha, revisionLimit);
    }
  }

  // Where a truncated listing cuts the history of a revision.
  ghost function ListedLength(all: seq<ListedRun>, limit: nat, sha: string): nat { |OfRevision(Truncate(all, limit), sha)| }

  lemma ListedRefines(all: seq<ListedRun>, sha: string, k: nat)
    requires k <= |all| && NewestFirst(OfRevision(all, sha)) && HasVerdict(OfRevision(all[..k], sha))
    ensures Classify(Some(RunHistory(OfRevision(all[..k], sha), true))) == FullVerdict(all, sha) <==>
            CutAgrees(OfRevision(all, sha), |OfRevision(all[..k], sha)|)
  {
    ListingCut(all, sha, k);
    HistoryCut(OfRevision(all, sha), |OfRevision(all[..k], sha)|, true);
  }

  lemma ShownRefines(
      atListing: seq<ListedRun>, grouped: Option<map<string, seq<RunEvidence>>>, limit: nat,
      recheck: Option<RunHistory>, sha: string)
    requires grouped.Some? ==> Groups(grouped.value, Truncate(atListing, limit))
    requires Shown(grouped, Truncate(atListing, limit), sha) && NewestFirst(OfRevision(atListing, sha))
    ensures Classify(HistoryForRevision(sha, grouped, recheck)) == FullVerdict(atListing, sha) <==>
            CutAgrees(OfRevision(atListing, sha), ListedLength(atListing, limit, sha))
  {
    var listing := Truncate(atListing, limit);
    assert listing == atListing[..|listing|];
    ShownDecides(grouped, listing, recheck, sha);
    ListedRefines(atListing, sha, |listing|);
  }

  /** Outcome and notes: the answer is the verdict of the complete history that was cut, exactly when
      the runs left out do not tie with the deciding ones and say something else. */
  lemma FastPathRefinesFullHistory(
      atListing: seq<ListedRun>, atRecheck: seq<ListedRun>, grouped: Option<map<string, seq<RunEvidence>>>,
      listingLimit: nat, revisionLimit: nat, recheckReadable: bool, sha: string)
    requires grouped.Some? ==> Groups(grouped.value, Truncate(atListing, listingLimit))
    requires NewestFirst(OfRevision(atListing, sha)) && NewestFirst(OfRevision(atRecheck, sha))
    ensures var answer := Answer(grouped, atRecheck, revisionLimit, recheckReadable, sha);
            var history := OfRevision(atRecheck, sha);
            if Shown(grouped, Truncate(atListing, listingLimit), sha) then
              answer == FullVerdict(atListing, sha) <==>
                CutAgrees(OfRevision(atListing, sha), ListedLength(atListing, listingLimit, sha))
            else
              answer.coverage == Unknown ||
              (answer == FullVerdict(atRecheck, sha) <==> CutAgrees(history, |Truncate(history, revisionLimit)|))
  {
    var listing := Truncate(atListing, listingLimit);
    var recheck := if recheckReadable then Some(Recheck(atRecheck, sha, revisionLimit)) else None;
    ShownDecides(grouped, listing, recheck, sha);
    if Shown(grouped, listing, sha) {
      ShownRefines(atListing, grouped, listingLimit, recheck, sha);
    } else if recheckReadable {
      RecheckRefines(atRecheck, sha, revisionLimit);
    }
  }

  lemma {:induction false} HistoryNewestFirst(all: seq<ListedRun>, sha: string)
    requires ListingNewestFirst(all)
    ensures NewestFirst(OfRevision(all, sha))
  {
    if all != [] {
      HistoryNewestFirst(all[1..], sha);
      forall t | t in OfRevision(all[1..], sha) ensures NotAfter(t, all[0].evidence) {
        OfRevisionMember(all[1..], sha, t);
        var j :| 0 <= j < |all[1..]| && all[1..][j] == ListedRun(sha, t);
        assert all[j + 1].evidence == t;
      }
    }
  }

  lemma CleanCutAgrees(head: seq<RunEvidence>, tail: seq<RunEvidence>)
    requires CleanCut(head, tail) && HasVerdict(head)
    ensures TiesAgree(head, tail)
  {
    var v :| v in head && IsVerdict(v);
    assert v in head + tail;
    forall t | t in tail ensures !Latest(head + tail, t) {
      NotAfterIsOrder(t, v, t);
    }
  }

  /** With distinct run ids a newest-first list meets both conditions at every cut that shows a verdict. */
  lemma DistinctIdsNeverTie(all: seq<ListedRun>, sha: string, k: nat)
    requires ListingNewestFirst(all) && DistinctIds(all)
    requires k <= |OfRevision(all, sha)| && HasVerdict(OfRevision(all, sha)[..k])
    ensures NewestFirst(OfRevision(all, sha)) && CutAgrees(OfRevision(all, sha), k)
  {
    HistoryNewestFirst(all, sha);
    RevisionCutIsClean(all, sha, k);
    CleanCutAgrees(OfRevision(all, sha)[..k], OfRevision(all, sha)[k..]);
  }

  /** So a gap the audit declares is a gap of the whole history. */
  lemma DeclaredGapsAreReal(all: seq<ListedRun>, sha: string, limit: nat)
    ensures var coverage := Classify(Some(Recheck(all, sha, limit))).coverage;
            && (coverage == Ungated ==> OfRevision(all, sha) == [])
            && (coverage == Unverifiable ==> OfRevision(all, sha) != [] && !HasVerdict(OfRevision(all, sha)))
  {
    ClassifyExact(Recheck(all, sha, limit));
  }
}

/** Listings without distinct run ids: a cut between tied runs misreads a revision, and exactly when a
    listed outcome, or a whole listed classification, is final. */
module AuditFinality {
  import opened Common
  import opened AuditVerdict
  import opened AuditListing

  ghost function OutcomeFor(runs: seq<RunEvidence>): Option<Outcome> { Classify(Some(RunHistory(runs, true))).outcome }

  lemma TiedRuns(a: RunEvidence, b: RunEvidence)
    requires SameKey(a, b) && a.state == "success" && b.state == "failure"
    ensures OutcomeFor([a]) == Some(Pass) && OutcomeFor([a, b]) == Some(Fail)
  {
    NotAfterIsOrder(a, a, a);
    assert a in [a] && a in [a, b] && b in [a, b];
    assert Latest([a], a) && Latest([a, b], b);
    ClassifyExact(RunHistory([a], true));
    ClassifyExact(RunHistory([a, b], true));
  }

  /** Two runs whose ids are missing and that started in the same second, cut between them: the listing
      shows a success, and the complete history is a failure. */
  lemma TiedRunsAreMisread()
    ensures var passed := ListedRun("c0ffee", RunEvidence("2026-01-01T00:00:00Z", "success", 0, 1));
            var failed := ListedRun("c0ffee", RunEvidence("2026-01-01T00:00:00Z", "failure", 0, 1));
            && ListingNewestFirst([passed, failed])
            && FullVerdict(Truncate([passed, failed], 1), "c0ffee").outcome == Some(Pass)
            && FullVerdict([passed, failed], "c0ffee").outcome == Some(Fail)
  {
    var a := RunEvidence("2026-01-01T00:00:00Z", "success", 0, 1);
    var b := RunEvidence("2026-01-01T00:00:00Z", "failure", 0, 1);
    Misread(a, b, "c0ffee");
  }

  lemma Misread(a: RunEvidence, b: RunEvidence, sha: string)
    requires SameKey(a, b) && a.state == "success" && b.state == "failure"
    ensures var both := [ListedRun(sha, a), ListedRun(sha, b)];
            && ListingNewestFirst(both)
            && FullVerdict(Truncate(both, 1), sha).outcome == Some(Pass)
            && FullVerdict(both, sha).outcome == Some(Fail)
  {
    var both := [ListedRun(sha, a), ListedRun(sha, b)];
    assert both[..1] == [ListedRun(sha, a)] && both[1..] == [ListedRun(sha, b)];
    assert OfRevision(both[..1], sha) == [a] && OfRevision(both[1..], sha) == [b];
    assert OfRevision(both, sha) == [a, b];
    NotAfterIsOrder(a, a, a);
    TiedRuns(a, b);
  }

  // The outcome read from a listing stays right whatever older runs the listing left out.
  ghost predicate Settled(seen: seq<ListedRun>, sha: string) {
    forall unseen :: ListingNewestFirst(seen + unseen) ==> SameOutcome(seen, unseen, sha)
  }

  ghost predicate SameOutcome(seen: seq<ListedRun>, unseen: seq<ListedRun>, sha: string) {
    OutcomeFor(OfRevision(seen + unseen, sha)) == OutcomeFor(OfRevision(seen, sha))
  }

  // The latest verdicts are all successes.
  ghost predicate Clean(runs: seq<RunEvidence>) { forall r :: Latest(runs, r) ==> r.state == "success" }

  lemma PassExactly(runs: seq<RunEvidence>)
    requires HasVerdict(runs)
    ensures OutcomeFor(runs) == Some(if Clean(runs) then Pass else Fail)
  {
    ClassifyExact(RunHistory(runs, true));
  }

  /** Run ids that are missing from the listing read as 0, so keys can tie.  The listed outcome of a
      revision is then right for every continuation exactly when it is a failure, or the oldest listed
      run is strictly older than the verdict. */
  lemma SettledExactly(seen: seq<ListedRun>, sha: string, verdict: RunEvidence)
    requires seen != [] && ListingNewestFirst(seen)
    requires Latest(OfRevision(seen, sha), verdict)
    ensures Settled(seen, sha) <==>
              OutcomeFor(OfRevision(seen, sha)) == Some(Fail) || Before(seen[|seen| - 1].evidence, verdict)
  {
    var listed := OfRevision(seen, sha);
    PassExactly(listed);
    if !Clean(listed) || Before(seen[|seen| - 1].evidence, verdict) {
      forall unseen | ListingNewestFirst(seen + unseen)
        ensures SameOutcome(seen, unseen, sha)
      {
        OfRevisionConcat(seen, unseen, sha);
        SettledFor(seen, unseen, sha, verdict);
        PassExactly(listed + OfRevision(unseen, sha));
      }
    } else {
      LastNotAfter(seen, sha, verdict);
      Overturned(seen, sha, verdict);
    }
  }

  lemma Overturned(seen: seq<ListedRun>, sha: string, verdict: RunEvidence)
    requires seen != [] && ListingNewestFirst(seen)
    requires Latest(OfRevision(seen, sha), verdict) && Clean(OfRevision(seen, sha))
    requires SameKey(seen[|seen| - 1].evidence, verdict)
    ensures !Settled(seen, sha)
  {
    var rival := seen[|seen| - 1].evidence.(state := "failure");
    TieIsAdmissible(seen, sha, rival);
    TiedFailureDecides(OfRevision(seen, sha), verdict, rival);
    OutcomesDiffer(seen, [ListedRun(sha, rival)], sha);
  }

  lemma OutcomesDiffer(seen: seq<ListedRun>, unseen: seq<ListedRun>, sha: string)
    requires HasVerdict(OfRevision(seen, sha)) && Clean(OfRevision(seen, sha))
    requires HasVerdict(OfRevision(seen + unseen, sha)) && !Clean(OfRevision(seen + unseen, sha))
    ensures !SameOutcome(seen, unseen, sha)
  {
    PassExactly(OfRevision(seen, sha));
    PassExactly(OfRevision(seen + unseen, sha));
  }

  lemma UnseenNotAfterLast(seen: seq<ListedRun>, unseen: seq<ListedRun>, sha: string, t: RunEvidence)
    requires seen != [] && ListingNewestFirst(seen + unseen) && t in OfRevision(unseen, sha)
    ensures NotAfter(t, seen[|seen| - 1].evidence)
  {
    OfRevisionMember(unseen, sha, t);
    var j :| 0 <= j < |unseen| && unseen[j] == ListedRun(sha, t);
    assert (seen + unseen)[|seen| + j].evidence == t;
    assert (seen + unseen)[|seen| - 1] == seen[|seen| - 1];
  }

  lemma LastNotAfter(seen: seq<ListedRun>, sha: string, r: RunEvidence)
    requires seen != [] && ListingNewestFirst(seen) && r in OfRevision(seen, sha)
    ensures NotAfter(seen[|seen| - 1].evidence, r)
  {
    OfRevisionMember(seen, sha, r);
    var i :| 0 <= i < |seen| && seen[i] == ListedRun(sha, r);
    if i == |seen| - 1 { NotAfterIsOrder(r, r, r); }
  }

  lemma OlderStaysOlder(seen: seq<ListedRun>, unseen: seq<ListedRun>, sha: string, t: RunEvidence, r: RunEvidence)
    requires seen != [] && ListingNewestFirst(seen) && ListingNewestFirst(seen + unseen)
    requires t in OfRevision(unseen, sha) && r in OfRevision(seen, sha)
    ensures NotAfter(t, r)
    ensures Before(seen[|seen| - 1].evidence, r) ==> Before(t, r)
  {
    var last := seen[|seen| - 1].evidence;
    UnseenNotAfterLast(seen, unseen, sha, t);
    LastNotAfter(seen, sha, r);
    NotAfterIsOrder(t, last, r);
    NotAfterIsOrder(r, t, last);
    NotAfterIsOrder(last, r, last);
  }

  lemma SettledFor(seen: seq<ListedRun>, unseen: seq<ListedRun>, sha: string, verdict: RunEvidence)
    requires seen != [] && ListingNewestFirst(seen) && ListingNewestFirst(seen + unseen)
    requires Latest(OfRevision(seen, sha), verdict)
    requires !Clean(OfRevision(seen, sha)) || Before(seen[|seen| - 1].evidence, verdict)
    ensures Clean(OfRevision(seen, sha) + OfRevision(unseen, sha)) == Clean(OfRevision(seen, sha))
    ensures HasVerdict(OfRevision(seen, sha) + OfRevision(unseen, sha))
  {
    var listed, older := OfRevision(seen, sha), OfRevision(unseen, sha);
    forall t, r | t in older && r in listed ensures NotAfter(t, r) {
      OlderStaysOlder(seen, unseen, sha, t, r);
    }
    LatestSurvives(listed, older);
    assert verdict in listed + older;
    if Before(seen[|seen| - 1].evidence, verdict) {
      forall r | Latest(listed + older, r) ensures Latest(listed, r) {
        if r in older {
          OlderStaysOlder(seen, unseen, sha, r, verdict);
          NotAfterIsOrder(r, verdict, r);
        }
      }
    }
  }

  lemma LatestSurvives(listed: seq<RunEvidence>, older: seq<RunEvidence>)
    requires forall t, r :: t in older && r in listed ==> NotAfter(t, r)
    ensures forall r :: Latest(listed, r) ==> Latest(listed + older, r)
  {
  }

  lemma {:induction false} TieIsAdmissible(seen: seq<ListedRun>, sha: string, rival: RunEvidence)
    requires seen != [] && ListingNewestFirst(seen) && SameKey(rival, seen[|seen| - 1].evidence)
    ensures ListingNewestFirst(seen + [ListedRun(sha, rival)])
    ensures OfRevision(seen + [ListedRun(sha, rival)], sha) == OfRevision(seen, sha) + [rival]
  {
    forall i | 0 <= i < |seen| ensures NotAfter(rival, seen[i].evidence) {
      NotAfterIsOrder(rival, rival, rival);
    }
    OfRevisionConcat(seen, [ListedRun(sha, rival)], sha);
    assert OfRevision([ListedRun(sha, rival)], sha) == [rival];
  }

  lemma TiedFailureDecides(runs: seq<RunEvidence>, verdict: RunEvidence, rival: RunEvidence)
    requires Latest(runs, verdict) && SameKey(rival, verdict) && rival.state == "failure"
    ensures !Clean(runs + [rival]) && HasVerdict(runs + [rival])
  {
  }

  /***** The whole classification *****/

  // Outcome and notes read from a listing stay right whatever older runs the listing left out.
  ghost predicate WhollySettled(seen: seq<ListedRun>, sha: string) {
    forall unseen :: ListingNewestFirst(seen + unseen) ==> SameVerdict(seen, unseen, sha)
  }

  ghost predicate SameVerdict(seen: seq<ListedRun>, unseen: seq<ListedRun>, sha: string) {
    FullVerdict(seen + unseen, sha) == FullVerdict(seen, sha)
  }

  // Both notes that a verdict can have.
  ghost predicate SaysAll(c: Classification) { AmbiguousOrder in c.notes && RerunVerdict in c.notes }

  lemma SaysAllExactly(runs: seq<RunEvidence>)
    requires HasVerdict(runs)
    ensures SaysAll(Classify(Some(RunHistory(runs, true)))) <==>
              HasOutcome(runs, Pass) && HasOutcome(runs, Fail) && HasRerun(runs)
  {
    DecidersSay(runs);
    DecisionTells(LatestTerminal(runs));
    DecideExact(LatestTerminal(runs));
  }

  lemma UnseenChanges(seen: seq<ListedRun>, unseen: seq<ListedRun>, sha: string)
    requires seen != [] && ListingNewestFirst(seen) && ListingNewestFirst(seen + unseen)
    requires HasVerdict(OfRevision(seen, sha))
    ensures SameVerdict(seen, unseen, sha) <==> TiesAgree(OfRevision(seen, sha), OfRevision(unseen, sha))
  {
    var listed, older := OfRevision(seen, sha), OfRevision(unseen, sha);
    OfRevisionConcat(seen, unseen, sha);
    forall h, t | h in listed && t in older ensures NotAfter(t, h) { OlderStaysOlder(seen, unseen, sha, t, h); }
    CutVerdictExactly(listed, older, true);
  }

  /** The whole classification, outcome and notes, is right for every continuation exactly when the
      oldest listed run is strictly older than the verdict, or both notes are there already. */
  lemma WhollySettledExactly(seen: seq<ListedRun>, sha: string, verdict: RunEvidence)
    requires seen != [] && ListingNewestFirst(seen)
    requires Latest(OfRevision(seen, sha), verdict)
    ensures WhollySettled(seen, sha) <==>
              SaysAll(FullVerdict(seen, sha)) || Before(seen[|seen| - 1].evidence, verdict)
  {
    var listed := OfRevision(seen, sha);
    SaysAllExactly(listed);
    if SaysAll(FullVerdict(seen, sha)) || Before(seen[|seen| - 1].evidence, verdict) {
      forall unseen | ListingNewestFirst(seen + unseen) ensures SameVerdict(seen, unseen, sha) {
        WhollySettledFor(seen, unseen, sha, verdict);
      }
    } else {
      LastNotAfter(seen, sha, verdict);
      var rival := UnsaidRival(listed, seen[|seen| - 1].evidence, verdict);
      RivalUnsettles(seen, sha, rival);
    }
  }

  lemma RivalUnsettles(seen: seq<ListedRun>, sha: string, rival: RunEvidence)
    requires seen != [] && ListingNewestFirst(seen) && SameKey(rival, seen[|seen| - 1].evidence)
    requires HasVerdict(OfRevision(seen, sha)) && !TiesAgree(OfRevision(seen, sha), [rival])
    ensures !WhollySettled(seen, sha)
  {
    var unseen := [ListedRun(sha, rival)];
    TieIsAdmissible(seen, sha, rival);
    assert OfRevision(unseen, sha) == [rival];
    UnseenChanges(seen, unseen, sha);
  }

  lemma WhollySettledFor(seen: seq<ListedRun>, unseen: seq<ListedRun>, sha: string, verdict: RunEvidence)
    requires seen != [] && ListingNewestFirst(seen) && ListingNewestFirst(seen + unseen)
    requires Latest(OfRevision(seen, sha), verdict)
    requires !Before(seen[|seen| - 1].evidence, verdict) ==>
               (forall o :: HasOutcome(OfRevision(seen, sha), o)) && HasRerun(OfRevision(seen, sha))
    ensures SameVerdict(seen, unseen, sha)
  {
    UnseenChanges(seen, unseen, sha);
    var listed, older := OfRevision(seen, sha), OfRevision(unseen, sha);
    if Before(seen[|seen| - 1].evidence, verdict) {
      assert verdict in listed + older;
      forall t | t in older ensures !Latest(listed + older, t) {
        OlderStaysOlder(seen, unseen, sha, t, verdict);
        NotAfterIsOrder(t, verdict, t);
      }
    }
  }

  // A run with the verdict's key that says what no deciding run says.
  lemma UnsaidRival(listed: seq<RunEvidence>, last: RunEvidence, verdict: RunEvidence) returns (rival: RunEvidence)
    requires Latest(listed, verdict) && SameKey(last, verdict)
    requires !(HasOutcome(listed, Pass) && HasOutcome(listed, Fail) && HasRerun(listed))
    ensures SameKey(rival, last) && !TiesAgree(listed, [rival])
  {
    rival := last.(state := if HasOutcome(listed, Fail) then "success" else "failure", attempt := 2);
    assert rival in listed + [rival];
    assert Latest(listed + [rival], rival);
  }
}

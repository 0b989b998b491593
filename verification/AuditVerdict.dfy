/** The verdict of one revision, computed from the runs known for it. */
module AuditVerdict {
  import opened Common
  import opened Sorting
  import TextOrder

  datatype RunEvidence = RunEvidence(createdAt: string, state: string, runId: int, attempt: int)

  datatype RunHistory = RunHistory(runs: seq<RunEvidence>, complete: bool)

  datatype Coverage = Verdict | Unverifiable | Ungated | Unknown

  datatype Outcome = Pass | Fail

  datatype Note = HistoryUnreadable | HistoryExhausted | AmbiguousOrder | RerunVerdict

  // The notes are shown joined by "; ", and none is shown as null.
  datatype Classification = Classification(coverage: Coverage, outcome: Option<Outcome>, notes: seq<Note>)

  predicate IsVerdict(run: RunEvidence) { run.state in {"success", "failure", "timed_out"} }

  function OutcomeOf(run: RunEvidence): Outcome { if run.state == "success" then Pass else Fail }

  // The order of (created_at, run_id) pairs.
  predicate NotAfter(a: RunEvidence, b: RunEvidence) {
    if a.createdAt == b.createdAt then a.runId <= b.runId else TextOrder.Leq(a.createdAt, b.createdAt)
  }

  predicate SameKey(a: RunEvidence, b: RunEvidence) { a.createdAt == b.createdAt && a.runId == b.runId }

  ghost predicate Before(a: RunEvidence, b: RunEvidence) { NotAfter(a, b) && !SameKey(a, b) }

  lemma NotAfterIsOrder(a: RunEvidence, b: RunEvidence, c: RunEvidence)
    ensures NotAfter(a, b) || NotAfter(b, a)
    ensures NotAfter(a, b) && NotAfter(b, a) ==> SameKey(a, b)
    ensures NotAfter(a, b) && NotAfter(b, c) ==> NotAfter(a, c)
  {
    TextOrder.LeqIsTotal(a.createdAt, b.createdAt);
    if NotAfter(a, b) && NotAfter(b, a) && a.createdAt != b.createdAt {
      TextOrder.LeqIsAntisymmetric(a.createdAt, b.createdAt);
    }
    if NotAfter(a, b) && NotAfter(b, c) && a.createdAt != b.createdAt && b.createdAt != c.createdAt {
      TextOrder.LeqIsTransitive(a.createdAt, b.createdAt, c.createdAt);
      if a.createdAt == c.createdAt { TextOrder.LeqIsAntisymmetric(a.createdAt, b.createdAt); }
    }
  }

  function SortRuns(runs: seq<RunEvidence>): seq<RunEvidence> { SortBy(runs, NotAfter) }

  ghost predicate OldestFirst(runs: seq<RunEvidence>) { Sorted(runs, NotAfter) }

  lemma SortRunsSorts(runs: seq<RunEvidence>)
    ensures OldestFirst(SortRuns(runs))
    ensures multiset(SortRuns(runs)) == multiset(runs)
    ensures forall r :: r in SortRuns(runs) <==> r in runs
  {
    forall a, b, c: RunEvidence
      ensures (NotAfter(a, b) || NotAfter(b, a)) && (NotAfter(a, b) && NotAfter(b, c) ==> NotAfter(a, c))
    {
      NotAfterIsOrder(a, b, c);
    }
    SortSorts(runs, NotAfter);
    SortPermutes(runs, NotAfter);
  }

  /***** Classification *****/

  // The terminal runs that carry the greatest key.
  function LatestTerminal(runs: seq<RunEvidence>): seq<RunEvidence> {
    var terminal := Filter(SortRuns(runs), IsVerdict);
    if terminal == [] then [] else Filter(terminal, r => SameKey(r, terminal[|terminal| - 1]))
  }

  function Decide(latest: seq<RunEvidence>): Classification {
    var outcomes := set r | r in latest :: OutcomeOf(r);
    Classification(
      Verdict,
      Some(if |outcomes| > 1 || Fail in outcomes then Fail else Pass),
      (if |outcomes| > 1 then [AmbiguousOrder] else []) +
      (if exists r :: r in latest && r.attempt > 1 then [RerunVerdict] else []))
  }

  function Classify(history: Option<RunHistory>): Classification {
    match history
    case None => Classification(Unknown, None, [HistoryUnreadable])
    case Some(h) =>
      var latest := LatestTerminal(h.runs);
      if latest != [] then Decide(latest)
      else if !h.complete then Classification(Unknown, None, [HistoryExhausted])
      else if h.runs != [] then Classification(Unverifiable, None, [])
      else Classification(Ungated, None, [])
  }

  ghost predicate HasVerdict(runs: seq<RunEvidence>) { exists r :: r in runs && IsVerdict(r) }

  // r is a terminal run of runs and no terminal run of runs is after it.
  ghost predicate Latest(runs: seq<RunEvidence>, r: RunEvidence) {
    r in runs && IsVerdict(r) && forall s :: s in runs && IsVerdict(s) ==> NotAfter(s, r)
  }

  lemma {:induction false} FilterKeepsOrder(runs: seq<RunEvidence>, p: RunEvidence -> bool)
    requires OldestFirst(runs)
    ensures OldestFirst(Filter(runs, p))
  {
    if runs != [] {
      FilterKeepsOrder(runs[1..], p);
      var rest := Filter(runs[1..], p);
      forall j | 0 <= j < |rest| ensures NotAfter(runs[0], rest[j]) {
        assert rest[j] in runs[1..];
      }
    }
  }

  lemma TerminalExact(runs: seq<RunEvidence>)
    ensures var terminal := Filter(SortRuns(runs), IsVerdict);
            && OldestFirst(terminal)
            && forall r :: r in terminal <==> r in runs && IsVerdict(r)
  {
    SortRunsSorts(runs);
    FilterKeepsOrder(SortRuns(runs), IsVerdict);
  }

  lemma GreatestKeyIsLast(terminal: seq<RunEvidence>, r: RunEvidence)
    requires OldestFirst(terminal) && r in terminal
    ensures SameKey(r, terminal[|terminal| - 1]) <==> forall s :: s in terminal ==> NotAfter(s, r)
  {
    var last := terminal[|terminal| - 1];
    NotAfterIsOrder(r, last, r);
    forall s | s in terminal ensures NotAfter(s, last) { NotAfterIsOrder(s, last, s); }
    assert last in terminal;
  }

  lemma LatestTerminalExact(runs: seq<RunEvidence>)
    ensures forall r :: r in LatestTerminal(runs) <==> Latest(runs, r)
    ensures LatestTerminal(runs) == [] <==> !HasVerdict(runs)
  {
    TerminalExact(runs);
    var terminal := Filter(SortRuns(runs), IsVerdict);
    forall r | r in terminal ensures SameKey(r, terminal[|terminal| - 1]) <==> Latest(runs, r) {
      GreatestKeyIsLast(terminal, r);
    }
    if terminal != [] {
      assert terminal[|terminal| - 1] in terminal;
      assert terminal[|terminal| - 1] in LatestTerminal(runs);
    }
  }

  lemma DecideExact(latest: seq<RunEvidence>)
    requires latest != [] && forall r :: r in latest ==> IsVerdict(r)
    ensures var c := Decide(latest);
            && c.coverage == Verdict && c.outcome.Some?
            && (c.outcome == Some(Pass) <==> forall r :: r in latest ==> r.state == "success")
            && (AmbiguousOrder in c.notes <==>
                  exists r, s :: r in latest && s in latest && r.state == "success" && s.state != "success")
            && (RerunVerdict in c.notes <==> exists r :: r in latest && r.attempt > 1)
            && HistoryExhausted !in c.notes && HistoryUnreadable !in c.notes
  {
    var outcomes := set r | r in latest :: OutcomeOf(r);
    assert OutcomeOf(latest[0]) in outcomes;
    OutcomesSize(outcomes);
    assert Pass in outcomes <==> exists r :: r in latest && r.state == "success";
    assert Fail in outcomes <==> exists r :: r in latest && r.state != "success";
  }

  lemma OutcomesSize(outcomes: set<Outcome>)
    requires outcomes != {}
    ensures |outcomes| > 1 <==> Pass in outcomes && Fail in outcomes
  {
    forall o | o in outcomes ensures o == Pass || o == Fail { match o case Pass => case Fail => }
    if Pass in outcomes && Fail in outcomes {
      assert outcomes == {Pass, Fail};
    } else if Pass in outcomes {
      assert outcomes == {Pass};
    } else {
      assert outcomes == {Fail};
    }
  }

  /** The verdict in terms of which runs there are, not of how they are listed: the latest terminal
      runs decide, a disagreement among them is a failure, and only a complete history is a gap. */
  lemma ClassifyExact(h: RunHistory)
    ensures var c := Classify(Some(h));
            && (c.coverage == Verdict <==> HasVerdict(h.runs))
            && (c.coverage == Unknown <==> !HasVerdict(h.runs) && !h.complete)
            && (c.coverage == Unverifiable <==> !HasVerdict(h.runs) && h.complete && h.runs != [])
            && (c.coverage == Ungated <==> h.runs == [] && h.complete)
            && (c.outcome.Some? <==> HasVerdict(h.runs))
            && (HasVerdict(h.runs) ==>
                  (c.outcome == Some(Pass) <==> forall r :: Latest(h.runs, r) ==> r.state == "success"))
            && (AmbiguousOrder in c.notes <==>
                  exists r, s :: Latest(h.runs, r) && Latest(h.runs, s) && r.state == "success" && s.state != "success")
            && (RerunVerdict in c.notes <==> exists r :: Latest(h.runs, r) && r.attempt > 1)
            && (HistoryExhausted in c.notes <==> c.coverage == Unknown)
  {
    LatestTerminalExact(h.runs);
    if LatestTerminal(h.runs) != [] { DecideExact(LatestTerminal(h.runs)); }
  }

  /***** Which runs decide, by their creation texts *****/

  ghost predicate IsTerminal(r: RunEvidence) { r.state == "success" || r.state == "failure" || r.state == "timed_out" }

  // r was created before s: its creation text has the smaller character where the two first differ, or
  // they are the same and its id is smaller.
  ghost predicate IsOlder(r: RunEvidence, s: RunEvidence) {
    TextOrder.Precedes(r.createdAt, s.createdAt) || (r.createdAt == s.createdAt && r.runId < s.runId)
  }

  // r is a terminal run of runs that is not older than any other.
  ghost predicate IsNewest(runs: seq<RunEvidence>, r: RunEvidence) {
    r in runs && IsTerminal(r) && forall s :: s in runs && IsTerminal(s) ==> !IsOlder(r, s)
  }

  lemma NotAfterExactly(r: RunEvidence, s: RunEvidence)
    ensures NotAfter(s, r) <==> !IsOlder(r, s)
  {
    TextOrder.LessExactly(r.createdAt, s.createdAt);
    TextOrder.LeqIsTotal(r.createdAt, s.createdAt);
    if TextOrder.Leq(r.createdAt, s.createdAt) && TextOrder.Leq(s.createdAt, r.createdAt) {
      TextOrder.LeqIsAntisymmetric(r.createdAt, s.createdAt);
    }
  }

  lemma NewestExactly(runs: seq<RunEvidence>, r: RunEvidence)
    ensures Latest(runs, r) <==> IsNewest(runs, r)
  {
    forall s ensures IsVerdict(s) <==> IsTerminal(s) {}
    forall s ensures NotAfter(s, r) <==> !IsOlder(r, s) { NotAfterExactly(r, s); }
  }

  /** The verdict of any history in terms of ages: the newest terminal runs decide, a failure or a timeout
      among them is a failure, and the notes say whether they disagree and whether one is a rerun. */
  lemma NewestDecide(runs: seq<RunEvidence>, complete: bool)
    ensures var c := Classify(Some(RunHistory(runs, complete)));
            && (c.coverage == Verdict <==> exists r :: r in runs && IsTerminal(r))
            && (c.outcome == Some(Pass) <==>
                  (exists r :: IsNewest(runs, r)) && forall r :: IsNewest(runs, r) ==> r.state == "success")
            && (c.outcome == Some(Fail) <==> exists r :: IsNewest(runs, r) && r.state != "success")
            && (AmbiguousOrder in c.notes <==>
                  && (exists r :: IsNewest(runs, r) && r.state == "success")
                  && (exists r :: IsNewest(runs, r) && r.state != "success"))
            && (RerunVerdict in c.notes <==> exists r :: IsNewest(runs, r) && r.attempt > 1)
  {
    forall r ensures (Latest(runs, r) <==> IsNewest(runs, r)) && (IsVerdict(r) <==> IsTerminal(r)) {
      NewestExactly(runs, r);
    }
    ClassifyExact(RunHistory(runs, complete));
    LatestTerminalExact(runs);
    if HasVerdict(runs) { assert Latest(runs, LatestTerminal(runs)[0]); }
    assert Classify(Some(RunHistory(runs, complete))).outcome in {None, Some(Pass), Some(Fail)} by {
      var c := Classify(Some(RunHistory(runs, complete)));
      if c.outcome.Some? { match c.outcome.value case Pass => case Fail => }
    }
  }

  /** The notes of a verdict come in one order, and an unreadable history is unknown. */
  lemma NotesInOrder(history: Option<RunHistory>)
    ensures var c := Classify(history);
            && (history.None? ==> c == Classification(Unknown, None, [HistoryUnreadable]))
            && (c.coverage == Verdict ==>
                  c.notes == (if AmbiguousOrder in c.notes then [AmbiguousOrder] else []) +
                             (if RerunVerdict in c.notes then [RerunVerdict] else []))
  {
  }

  /** One terminal run that all others are older than decides alone. */
  lemma TheNewestDecides(runs: seq<RunEvidence>, complete: bool, newest: RunEvidence)
    requires newest in runs && IsTerminal(newest)
    requires forall r :: r in runs && IsTerminal(r) && r != newest ==> IsOlder(r, newest)
    ensures Classify(Some(RunHistory(runs, complete))) ==
            Classification(Verdict, Some(if newest.state == "success" then Pass else Fail),
                           if newest.attempt > 1 then [RerunVerdict] else [])
  {
    forall r ensures IsNewest(runs, r) <==> r == newest {
      NotAfterExactly(r, newest);
      NotAfterExactly(newest, r);
      NotAfterIsOrder(r, newest, r);
    }
    forall r ensures Latest(runs, r) <==> r == newest { NewestExactly(runs, r); }
    LatestTerminalExact(runs);
    var latest := LatestTerminal(runs);
    assert forall r :: r in latest <==> r == newest;
    assert newest in latest;
    assert (set r | r in latest :: OutcomeOf(r)) == {OutcomeOf(newest)};
  }

  /** Listing order and repetition do not matter: the same set of runs gets the same verdict. */
  lemma OrderIndependent(a: RunHistory, b: RunHistory)
    requires a.complete == b.complete
    requires forall r :: r in a.runs <==> r in b.runs
    ensures Classify(Some(a)) == Classify(Some(b))
  {
    SameLatestSameVerdict(a.runs, b.runs);
    assert a.runs == [] <==> b.runs == [] by {
      if a.runs != [] { assert a.runs[0] in b.runs; }
      if b.runs != [] { assert b.runs[0] in a.runs; }
    }
  }

  lemma SameLatestSameVerdict(a: seq<RunEvidence>, b: seq<RunEvidence>)
    requires forall r :: Latest(a, r) <==> Latest(b, r)
    ensures LatestTerminal(a) == [] <==> LatestTerminal(b) == []
    ensures Decide(LatestTerminal(a)) == Decide(LatestTerminal(b))
  {
    LatestTerminalExact(a);
    LatestTerminalExact(b);
    var x, y := LatestTerminal(a), LatestTerminal(b);
    if x != [] { assert x[0] in y; }
    if y != [] { assert y[0] in x; }
    assert forall r :: r in x <==> r in y;
    assert (set r | r in x :: OutcomeOf(r)) == (set r | r in y :: OutcomeOf(r));
  }

  /** Runs that are not verdicts never change a verdict, and a strictly later verdict decides alone. */
  lemma OnlyTheLatestVerdictsDecide(runs: seq<RunEvidence>, more: seq<RunEvidence>, complete: bool)
    requires HasVerdict(runs)
    requires forall m, r :: m in more && IsVerdict(m) && r in runs && IsVerdict(r) ==> Before(m, r)
    ensures Classify(Some(RunHistory(runs + more, complete))) == Classify(Some(RunHistory(runs, true)))
    ensures Classify(Some(RunHistory(more + runs, complete))) == Classify(Some(RunHistory(runs, true)))
  {
    forall r ensures Latest(runs, r) <==> Latest(runs + more, r) {
      LaterOnly(runs, more, r);
    }
    assert forall r :: Latest(more + runs, r) <==> Latest(runs + more, r);
    LatestTerminalExact(runs);
    SameLatestSameVerdict(runs, runs + more);
    SameLatestSameVerdict(runs, more + runs);
  }

  lemma LaterOnly(runs: seq<RunEvidence>, more: seq<RunEvidence>, r: RunEvidence)
    requires HasVerdict(runs)
    requires forall m, r :: m in more && IsVerdict(m) && r in runs && IsVerdict(r) ==> Before(m, r)
    ensures Latest(runs, r) <==> Latest(runs + more, r)
  {
    var v :| v in runs && IsVerdict(v);
    if r in more && IsVerdict(r) {
      NotAfterIsOrder(v, r, v);
      NotAfterIsOrder(r, v, r);
    }
  }
}

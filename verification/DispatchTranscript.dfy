/** The calls a run makes, and what each fault does to it: statements about the transcript of calls and
    answers alone. */
module DispatchTranscript {
  import opened Common
  import opened DispatchRemote
  import opened DispatchRun
  import opened DispatchTheorems

  // A fault that does not stop a run: HTTP 404 on a read means that the tag is absent, and HTTP 422 on a
  // create leads to a second read.
  ghost predicate Absorbed(call: Call, fault: Fault) {
    || fault.Healthy?
    || (call.TagRead? && fault.error == Api(404))
    || (call.TagCreate? && fault.error == Api(422))
  }

  // Within one revision each call is made because of the answer to the one before it.
  ghost predicate Follows(before: Call, call: Call, revision: Sha, pr: int) {
    var ref := "main-releasability-" + revision;
    match call
    case PolicyRead => false
    case TagRead(r, _) => r == ref && before == TagCreate(ref, revision, Failure(Api(422)))
    case TagCreate(r, sha, _) => r == ref && sha == revision && before == TagRead(ref, Success(None))
    case WorkflowStart(r, expected, number, _) =>
      && r == ref && expected == revision && number == pr
      && before in {TagRead(ref, Success(Some(revision))), TagCreate(ref, revision, Success(()))}
  }

  // The result of a revision that ends with the last of these calls.
  ghost predicate EndsWith(calls: seq<Call>, fault: Fault, revision: Sha, result: Result<(), Error>)
    requires calls != []
  {
    var last := calls[|calls| - 1];
    if !Absorbed(last, fault) then result == Failure(fault.error)
    else
      match last
      case TagRead(_, Failure(e)) => e == Dispatch(InvalidResponse) && result == Failure(e)
      case TagRead(_, Success(found)) =>
        && found != Some(revision)
        && result == Failure(if |calls| == 1 then Dispatch(TagConflict) else Api(422))
      case WorkflowStart(_, _, _, started) => started == Success(()) && result == started
      case _ => false
  }

  // The calls made for one revision, the first of them with number lo.
  ghost predicate IsTurn(calls: seq<Call>, env: Schedule, lo: nat, revision: Sha, pr: int, result: Result<(), Error>) {
    && calls != [] && calls[0].TagRead? && calls[0].ref == "main-releasability-" + revision
    && (forall k :: 0 < k < |calls| ==> Follows(calls[k - 1], calls[k], revision, pr))
    && (forall k :: 0 <= k < |calls| - 1 ==> Absorbed(calls[k], env(lo + k).fault))
    && EndsWith(calls, env(lo + |calls| - 1).fault, revision, result)
  }

  // The calls that make sure of a tag; the dispatch follows on success.
  ghost predicate IsTagging(calls: seq<Call>, env: Schedule, lo: nat, revision: Sha, pr: int, result: Result<(), Error>) {
    && calls != [] && calls[0].TagRead? && calls[0].ref == DispatchRef(revision)
    && (forall k :: 0 < k < |calls| ==> Follows(calls[k - 1], calls[k], revision, pr) && !calls[k].WorkflowStart?)
    && (forall k :: 0 <= k < |calls| - 1 ==> Absorbed(calls[k], env(lo + k).fault))
    && var last := calls[|calls| - 1];
       if result.Failure? then EndsWith(calls, env(lo + |calls| - 1).fault, revision, result)
       else
         && last in {TagRead(DispatchRef(revision), Success(Some(revision))),
                     TagCreate(DispatchRef(revision), revision, Success(()))}
         && env(lo + |calls| - 1).fault.Healthy?
  }

  lemma TaggingCalls(w: World, env: Schedule, revision: Sha, pr: int) returns (calls: seq<Call>)
    ensures EnsureTag(w, env, revision).world.calls == w.calls + calls
    ensures IsTagging(calls, env, w.clock, revision, pr, EnsureTag(w, env, revision).result)
  {
    var ref := DispatchRef(revision);
    var read := ReadRef(w, env, ref);
    var first := TagRead(ref, read.result);
    calls := [first];
    if read.result == Success(None) {
      var made := CreateRef(read.world, env, ref, revision);
      var second := TagCreate(ref, revision, made.result);
      calls := [first, second];
      assert w.calls + [first] + [second] == w.calls + calls;
      assert Follows(first, second, revision, pr);
      if made.result == Failure(Api(ALREADY_EXISTS)) {
        var again := ReadRef(made.world, env, ref);
        var third := TagRead(ref, again.result);
        calls := [first, second, third];
        assert w.calls + [first] + [second] + [third] == w.calls + calls;
        assert Follows(second, third, revision, pr);
      }
    }
  }

  lemma TurnCalls(w: World, env: Schedule, revision: Sha, pr: int) returns (calls: seq<Call>)
    ensures DispatchOne(w, env, revision, pr).world.calls == w.calls + calls
    ensures IsTurn(calls, env, w.clock, revision, pr, DispatchOne(w, env, revision, pr).result)
  {
    var tagged := EnsureTag(w, env, revision);
    var tagging := TaggingCalls(w, env, revision, pr);
    calls := tagging;
    if tagged.result.Success? {
      EnsureTagTags(w, env, revision);
      assert DispatchRef([revision][0]) in tagged.world.tags;
      var step := DispatchWorkflow(tagged.world, env, DispatchRef(revision), revision, pr);
      var last := WorkflowStart(DispatchRef(revision), revision, pr, step.result);
      calls := tagging + [last];
      assert w.calls + tagging + [last] == w.calls + calls;
      StartEndsTurn(tagging, last, env, w.clock, revision, pr);
    }
  }

  lemma StartEndsTurn(tagging: seq<Call>, last: Call, env: Schedule, lo: nat, revision: Sha, pr: int)
    requires IsTagging(tagging, env, lo, revision, pr, Success(()))
    requires last.WorkflowStart? && last.ref == DispatchRef(revision) && last.revision == revision && last.pr == pr
    requires var fault := env(lo + |tagging|).fault;
             last.started == if fault.Healthy? then Success(()) else Failure(fault.error)
    ensures IsTurn(tagging + [last], env, lo, revision, pr, last.started)
  {
    var calls := tagging + [last];
    forall k | 0 < k < |calls| ensures Follows(calls[k - 1], calls[k], revision, pr) {
      if k < |tagging| { assert Follows(tagging[k - 1], tagging[k], revision, pr); }
    }
    forall k | 0 <= k < |calls| - 1 ensures Absorbed(calls[k], env(lo + k).fault) {
      assert k < |tagging| - 1 ==> Absorbed(tagging[k], env(lo + k).fault);
    }
  }

  /***** Whole runs *****/

  // The call starts work on a new revision: the policy has been read, or the revision before it is started.
  ghost predicate IsDone(before: Call) { before.PolicyRead? || (before.WorkflowStart? && before.started == Success(())) }

  // The call is the first read for one of the revisions, or it follows for one of them.
  ghost predicate IsJustified(before: Call, call: Call, revisions: seq<Sha>, pr: int) {
    || (IsDone(before) && call.TagRead? && exists r :: r in revisions && call.ref == "main-releasability-" + r)
    || exists r :: r in revisions && Follows(before, call, r, pr)
  }

  // The runs that the starts from call number lo on leave behind: one for each that reached the remote.
  ghost function RunsStarted(calls: seq<Call>, env: Schedule, lo: nat): seq<WorkflowRun>
    decreases |calls|
  {
    if |calls| <= lo then []
    else
      var last := |calls| - 1;
      RunsStarted(calls[..last], env, lo) +
      if calls[last].WorkflowStart? && !env(last).fault.RequestLost?
      then [WorkflowRun(calls[last].ref, calls[last].revision, calls[last].pr, calls[last].revision)] else []
  }

  lemma {:induction false} RunsStartedCompose(first: seq<Call>, rest: seq<Call>, env: Schedule, lo: nat)
    requires lo <= |first|
    ensures RunsStarted(first + rest, env, lo) == RunsStarted(first, env, lo) + RunsStarted(first + rest, env, |first|)
    decreases |rest|
  {
    var all := first + rest;
    if rest == [] {
      assert all == first;
    } else {
      var last := |all| - 1;
      assert all[..last] == first + rest[..|rest| - 1];
      RunsStartedCompose(first, rest[..|rest| - 1], env, lo);
    }
  }

  // The calls of w' number w.clock and on, each but the last with an absorbed fault; the last decides.
  ghost predicate Decided(w: World, w': World, env: Schedule, failure: Option<Error>) {
    EndDecides(w.calls, w'.calls, env, failure) && w'.runs == w.runs + RunsStarted(w'.calls, env, w.clock)
  }

  ghost predicate EndDecides(before: seq<Call>, after: seq<Call>, env: Schedule, failure: Option<Error>) {
    && before <= after
    && (forall k :: |before| <= k < |after| - 1 ==> Absorbed(after[k], env(k).fault))
    && (|before| < |after| ==>
          var last := |after| - 1;
          if !Absorbed(after[last], env(last).fault) then failure == Some(env(last).fault.error)
          else failure == None || IsRefused(after[last], failure.value))
  }

  // The tag of a revision is not the revision's own, or is no commit at all.
  ghost predicate IsRefused(last: Call, e: Error) {
    && last.TagRead? && e in {Dispatch(InvalidResponse), Dispatch(TagConflict), Api(422)}
    && (last.found == Failure(e) || exists r :: last.ref == "main-releasability-" + r && IsOther(last.found, r))
  }

  ghost predicate IsOther(found: Result<Option<Sha>, Error>, revision: Sha) {
    found.Success? && found.value != Some(revision)
  }

  ghost predicate AllJustified(calls: seq<Call>, lo: nat, revisions: seq<Sha>, pr: int) {
    forall k :: lo < k < |calls| ==> IsJustified(calls[k - 1], calls[k], revisions, pr)
  }

  ghost function FailureOf<T>(r: Result<T, Error>): Option<Error> { if r.Failure? then Some(r.error) else None }

  lemma StartRuns(w: World, env: Schedule, revision: Sha, pr: int)
    requires DispatchRef(revision) in w.tags && w.tags[DispatchRef(revision)] == revision
    ensures var step := DispatchWorkflow(w, env, DispatchRef(revision), revision, pr);
            step.world.runs == w.runs + RunsStarted(step.world.calls, env, w.clock)
  {
    var step := DispatchWorkflow(w, env, DispatchRef(revision), revision, pr);
    assert step.world.calls[..w.clock] == w.calls;
    assert RunsStarted(w.calls, env, w.clock) == [];
  }

  lemma TurnRuns(w: World, env: Schedule, revision: Sha, pr: int)
    ensures var step := DispatchOne(w, env, revision, pr);
            step.world.runs == w.runs + RunsStarted(step.world.calls, env, w.clock)
  {
    var tagged := EnsureTag(w, env, revision);
    TaggingStartsNone(w, env, revision, pr);
    if tagged.result.Success? {
      assert DispatchRef([revision][0]) in tagged.world.tags;
      StartRuns(tagged.world, env, revision, pr);
      var calls := DispatchOne(w, env, revision, pr).world.calls;
      assert calls == tagged.world.calls + calls[tagged.world.clock..];
      RunsStartedCompose(tagged.world.calls, calls[tagged.world.clock..], env, w.clock);
    }
  }

  lemma TaggingStartsNone(w: World, env: Schedule, revision: Sha, pr: int)
    ensures var tagged := EnsureTag(w, env, revision);
            && w.clock <= tagged.world.clock && RunsStarted(tagged.world.calls, env, w.clock) == []
            && tagged.world.runs == w.runs && (tagged.result.Success? ==> Tagged(tagged.world.tags, [revision]))
  {
    var tagging := TaggingCalls(w, env, revision, pr);
    NoStarts(EnsureTag(w, env, revision).world.calls, env, w.clock);
    EnsureTagTags(w, env, revision);
  }

  lemma {:induction false} NoStarts(calls: seq<Call>, env: Schedule, lo: nat)
    requires forall k :: lo <= k < |calls| ==> !calls[k].WorkflowStart?
    ensures RunsStarted(calls, env, lo) == []
    decreases |calls|
  {
    if lo < |calls| { NoStarts(calls[..|calls| - 1], env, lo); }
  }

  lemma TurnIsDecided(w: World, env: Schedule, revision: Sha, pr: int)
    ensures var step := DispatchOne(w, env, revision, pr);
            && w.clock < step.world.clock && Decided(w, step.world, env, FailureOf(step.result))
            && AllJustified(step.world.calls, w.clock, [revision], pr)
            && step.world.calls[w.clock].TagRead? && step.world.calls[w.clock].ref == DispatchRef(revision)
            && (step.result.Success? ==> IsDone(step.world.calls[step.world.clock - 1]))
  {
    var step := DispatchOne(w, env, revision, pr);
    var calls := TurnCalls(w, env, revision, pr);
    TurnRuns(w, env, revision, pr);
    TurnDecides(w.calls, step.world.calls, calls, env, revision, pr, step.result);
  }

  lemma TurnDecides(
      before: seq<Call>, after: seq<Call>, calls: seq<Call>, env: Schedule, revision: Sha, pr: int, result: Result<(), Error>)
    requires after == before + calls && IsTurn(calls, env, |before|, revision, pr, result)
    ensures |before| < |after| && EndDecides(before, after, env, FailureOf(result))
    ensures AllJustified(after, |before|, [revision], pr)
    ensures after[|before|].TagRead? && after[|before|].ref == DispatchRef(revision)
    ensures result.Success? ==> IsDone(after[|after| - 1])
  {
    assert forall k :: 0 <= k < |calls| ==> after[|before| + k] == calls[k];
    assert revision in [revision];
    forall k | |before| < k < |after| ensures IsJustified(after[k - 1], after[k], [revision], pr) {
      assert Follows(calls[k - |before| - 1], calls[k - |before|], revision, pr);
    }
    forall k | |before| <= k < |after| - 1 ensures Absorbed(after[k], env(k).fault) {
      assert Absorbed(calls[k - |before|], env(|before| + (k - |before|)).fault);
    }
    assert |calls| > 1 ==> Follows(calls[|calls| - 2], calls[|calls| - 1], revision, pr);
    EndIsRefusal(calls, env(|after| - 1).fault, revision, result);
  }

  lemma EndIsRefusal(calls: seq<Call>, fault: Fault, revision: Sha, result: Result<(), Error>)
    requires calls != [] && EndsWith(calls, fault, revision, result)
    requires calls[|calls| - 1].TagRead? ==> calls[|calls| - 1].ref == "main-releasability-" + revision
    ensures var last := calls[|calls| - 1];
            if !Absorbed(last, fault) then result == Failure(fault.error)
            else result.Success? || IsRefused(last, result.error)
    ensures result.Success? ==> IsDone(calls[|calls| - 1])
  {
    var last := calls[|calls| - 1];
    assert last.TagRead? ==> (IsOther(last.found, revision) <==> last.found.Success? && last.found.value != Some(revision));
  }

  lemma Composes(w: World, w1: World, w2: World, env: Schedule, failure: Option<Error>)
    requires Decided(w, w1, env, None) && w.clock < w1.clock && Decided(w1, w2, env, failure)
    requires !failure.Some? || w1.clock < w2.clock
    ensures Decided(w, w2, env, failure)
  {
    assert w2.calls == w1.calls + w2.calls[w1.clock..];
    RunsStartedCompose(w1.calls, w2.calls[w1.clock..], env, w.clock);
    forall k | w.clock <= k < w2.clock - 1 ensures Absorbed(w2.calls[k], env(k).fault) {
      if k < w1.clock { assert w2.calls[k] == w1.calls[k]; }
    }
    if w1.clock == w2.clock { assert w2.calls == w1.calls; }
  }

  lemma JustifiedComposes(before: seq<Call>, after: seq<Call>, lo: nat, head: seq<Sha>, tail: seq<Sha>, pr: int)
    requires before <= after && lo < |before|
    requires AllJustified(before, lo, head, pr) && AllJustified(after, |before|, tail, pr)
    requires |before| < |after| ==> IsJustified(after[|before| - 1], after[|before|], tail, pr)
    ensures AllJustified(after, lo, head + tail, pr)
  {
    assert forall r :: r in head || r in tail ==> r in head + tail;
    forall k | lo < k < |after| ensures IsJustified(after[k - 1], after[k], head + tail, pr) {
      if k < |before| { assert IsJustified(before[k - 1], before[k], head, pr); }
    }
  }

  // A pass starts with the first read for the first of its revisions.
  ghost predicate Begins(calls: seq<Call>, lo: nat, revisions: seq<Sha>) {
    if revisions == [] then |calls| == lo
    else lo < |calls| && calls[lo].TagRead? && calls[lo].ref == "main-releasability-" + revisions[0]
  }

  lemma {:induction false} PassIsDecided(w: World, env: Schedule, revisions: seq<Sha>, pr: int)
    ensures var step := DispatchAll(w, env, revisions, pr);
            && Decided(w, step.world, env, FailureOf(step.result))
            && AllJustified(step.world.calls, w.clock, revisions, pr)
            && Begins(step.world.calls, w.clock, revisions)
            && (step.result.Failure? ==> w.clock < step.world.clock)
    decreases |revisions|
  {
    if revisions != [] {
      var one := DispatchOne(w, env, revisions[0], pr);
      TurnIsDecided(w, env, revisions[0], pr);
      assert [revisions[0]] + revisions[1..] == revisions;
      if one.result.Failure? {
        JustifiedComposes(one.world.calls, one.world.calls, w.clock, [revisions[0]], revisions[1..], pr);
      } else {
        PassIsDecided(one.world, env, revisions[1..], pr);
        var step := DispatchAll(one.world, env, revisions[1..], pr);
        Composes(w, one.world, step.world, env, FailureOf(step.result));
        if one.world.clock < step.world.clock {
          assert revisions[1] in revisions[1..];
          assert IsJustified(step.world.calls[one.world.clock - 1], step.world.calls[one.world.clock], revisions[1..], pr);
        }
        JustifiedComposes(one.world.calls, step.world.calls, w.clock, [revisions[0]], revisions[1..], pr);
      }
    }
  }

  // The calls of a run after the ones before it, and the error it raises, if it raises one.
  ghost predicate RunEnds(before: seq<Call>, after: seq<Call>, env: Schedule, failure: Option<Error>) {
    && before < after && after[|before|] == PolicyRead
    && var last := |after| - 1;
       && (forall k :: |before| <= k < last ==> Absorbed(after[k], env(k).fault))
       && (!Absorbed(after[last], env(last).fault) ==> failure == Some(env(last).fault.error))
       && (Absorbed(after[last], env(last).fault) && failure.Some? && |before| < last ==>
             IsRefused(after[last], failure.value))
  }

  // A run ends like that, and leaves behind the runs of the starts that reached the remote.
  ghost predicate FaultsDecided(w: World, env: Schedule, run: Step<seq<Sha>>) {
    && RunEnds(w.calls, run.world.calls, env, FailureOf(run.result))
    && run.world.runs == w.runs + RunsStarted(run.world.calls, env, w.clock)
  }

  lemma UncheckedRun(w: World, env: Schedule, inputs: Inputs)
    requires Preflight(w, env, inputs).result.Failure?
    ensures FaultsDecided(w, env, Run(w, env, inputs))
  {
    PreflightIsAllOrNothing(w, env, inputs);
    NoStarts(w.calls + [PolicyRead], env, w.clock);
  }

  lemma CheckedRun(w: World, env: Schedule, inputs: Inputs)
    requires Preflight(w, env, inputs).result.Success?
    ensures FaultsDecided(w, env, Run(w, env, inputs))
  {
    PreflightIsAllOrNothing(w, env, inputs);
    var checked := Preflight(w, env, inputs);
    NoStarts(checked.world.calls, env, w.clock);
    PassIsDecided(checked.world, env, checked.result.value, inputs.pr.number);
    var all := DispatchAll(checked.world, env, checked.result.value, inputs.pr.number);
    Composes(w, checked.world, all.world, env, FailureOf(all.result));
  }

  /** What a fault does to a run, whatever the schedule.  Every call but the last was healthy, or failed
      with HTTP 404 on a read or HTTP 422 on a create.  If the last one failed otherwise, the run raises
      that very error; if not, a run that fails has been refused before its first tag, or by a tag that is
      not its revision's own.  The runs it leaves behind are those of the starts that reached the remote. */
  lemma FaultsDecide(w: World, env: Schedule, inputs: Inputs)
    ensures FaultsDecided(w, env, Run(w, env, inputs))
  {
    if Preflight(w, env, inputs).result.Success? { CheckedRun(w, env, inputs); } else { UncheckedRun(w, env, inputs); }
  }

  /** Every call of a run after the reading of the policy is made because of the answer to the one before:
      a create only after a read that found no tag, a second read only after a create answered by HTTP 422,
      a start only after the tag was found or made at its own revision. */
  lemma CallsAreJustified(w: World, env: Schedule, inputs: Inputs, revisions: seq<Sha>)
    requires Admissible(inputs, revisions)
    ensures AllJustified(Run(w, env, inputs).world.calls, w.clock, revisions, inputs.pr.number)
  {
    PreflightIsAllOrNothing(w, env, inputs);
    var checked := Preflight(w, env, inputs);
    if checked.result.Success? {
      assert checked.result == Success(revisions);
      PassIsDecided(checked.world, env, revisions, inputs.pr.number);
      assert revisions[0] in revisions;
      var run := Run(w, env, inputs).world;
      assert IsDone(run.calls[w.clock]) by { assert run.calls[w.clock] == checked.world.calls[w.clock]; }
      assert AllJustified(checked.world.calls, w.clock, [], inputs.pr.number);
      assert [] + revisions == revisions;
      JustifiedComposes(checked.world.calls, run.calls, w.clock, [], revisions, inputs.pr.number);
    }
  }

  lemma FaultIsLast(before: seq<Call>, after: seq<Call>, env: Schedule, failure: Option<Error>, k: nat)
    requires RunEnds(before, after, env, failure) && |before| <= k < |after| && !Absorbed(after[k], env(k).fault)
    ensures k == |after| - 1 && failure == Some(env(k).fault.error)
  {
  }

  /** So any other fault, such as HTTP 500 for a create, is the end: it is raised, and nothing is started
      after it; a run is added by the call itself only if that is a start whose answer was lost. */
  lemma OtherFaultsRaise(w: World, env: Schedule, run: Step<seq<Sha>>, k: nat)
    requires FaultsDecided(w, env, run) && w.clock <= k < run.world.clock
    requires !Absorbed(run.world.calls[k], env(k).fault)
    ensures k == run.world.clock - 1 && run.result == Failure(env(k).fault.error)
    ensures !(run.world.calls[k].WorkflowStart? && env(k).fault.ResponseLost?) ==>
              run.world.runs == w.runs + RunsStarted(run.world.calls[..k], env, w.clock)
  {
    FaultIsLast(w.calls, run.world.calls, env, FailureOf(run.result), k);
  }
}

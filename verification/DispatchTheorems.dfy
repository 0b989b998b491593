/** What holds of every run of the dispatcher, for every schedule of interference, faults and crashes. */
module DispatchTheorems {
  import opened Common
  import opened DispatchRemote
  import opened DispatchRun

  /***** Steps compose *****/

  lemma WithinComposes(w: World, w1: World, w2: World, env: Schedule, refs: set<Ref>)
    requires Within(w, w1, env, refs) && Within(w1, w2, env, refs)
    ensures Within(w, w2, env, refs)
  {
    forall ref | ref !in refs
      ensures SameAt(w2.tags, OthersOnly(w.tags, env, w.clock, w2.clock), ref)
    {
      OthersOnlySplits(w.tags, env, w.clock, w1.clock, w2.clock);
      OthersOnlyKeepsAgreement(
        w1.tags, OthersOnly(w.tags, env, w.clock, w1.clock), env, w1.clock, w2.clock, ref);
    }
  }

  lemma InterferenceOnly(w: World, env: Schedule, call: Call, refs: set<Ref>)
    ensures Within(w, Interfere(w, env, call), env, refs)
  {
  }

  lemma EnsureTagStays(w: World, env: Schedule, revision: Sha, refs: set<Ref>)
    requires DispatchRef(revision) in refs
    ensures var step := EnsureTag(w, env, revision);
            && Within(w, step.world, env, refs)
            && step.world.runs == w.runs
            && (step.result.Success? ==> Tagged(step.world.tags, [revision]))
  {
    EnsureTagStaysWithin(w, env, revision, refs);
    EnsureTagTags(w, env, revision);
  }

  lemma EnsureTagStaysWithin(w: World, env: Schedule, revision: Sha, refs: set<Ref>)
    requires DispatchRef(revision) in refs
    ensures Within(w, EnsureTag(w, env, revision).world, env, refs)
  {
    var ref := DispatchRef(revision);
    var read := ReadRef(w, env, ref);
    if read.result == Success(None) {
      var made := CreateRef(read.world, env, ref, revision);
      WithinComposes(w, read.world, made.world, env, refs);
      if made.result == Failure(Api(ALREADY_EXISTS)) {
        WithinComposes(w, made.world, ReadRef(made.world, env, ref).world, env, refs);
      }
    }
  }

  lemma EnsureTagTags(w: World, env: Schedule, revision: Sha)
    ensures var step := EnsureTag(w, env, revision);
            step.world.runs == w.runs && (step.result.Success? ==> Tagged(step.world.tags, [revision]))
  {
  }

  /** A dispatch that reaches the remote finds the revision's own tag, whichever actor created it. */
  lemma DispatchOneIsExact(w: World, env: Schedule, revision: Sha, pr: int, refs: set<Ref>)
    requires DispatchRef(revision) in refs
    ensures var step := DispatchOne(w, env, revision, pr);
            && Within(w, step.world, env, refs)
            && (step.world.runs == w.runs || step.world.runs == w.runs + [ExactRun(revision, pr)])
            && (step.world.runs != w.runs ==> Tagged(step.world.tags, [revision]))
            && (step.result.Success? ==> step.world.runs != w.runs)
  {
    EnsureTagStays(w, env, revision, refs);
    var tagged := EnsureTag(w, env, revision);
    if tagged.result.Success? {
      WithinComposes(w, tagged.world, DispatchOne(w, env, revision, pr).world, env, refs);
      assert DispatchRef([revision][0]) in tagged.world.tags;
    }
  }

  /** From w to w' the dispatcher appended exact runs for the first k revisions, in order, each with
      its tag in place, and left every tag outside refs to the other actors. */
  ghost predicate Progress(
      w: World, w': World, env: Schedule, revisions: seq<Sha>, pr: int, refs: set<Ref>, k: nat)
    requires k <= |revisions|
  {
    && Within(w, w', env, refs)
    && w'.runs == w.runs + ExactRuns(revisions[..k], pr)
    && Tagged(w'.tags, revisions[..k])
  }

  lemma ProgressExtends(
      w: World, w1: World, w2: World, env: Schedule, revisions: seq<Sha>, pr: int, refs: set<Ref>, k: nat)
    requires revisions != [] && k <= |revisions[1..]|
    requires Within(w, w1, env, refs)
    requires w1.runs == w.runs + [ExactRun(revisions[0], pr)] && Tagged(w1.tags, [revisions[0]])
    requires Progress(w1, w2, env, revisions[1..], pr, refs, k)
    ensures Progress(w, w2, env, revisions, pr, refs, k + 1)
  {
    WithinComposes(w, w1, w2, env, refs);
    assert ExactRuns(revisions[..k + 1], pr) == [ExactRun(revisions[0], pr)] + ExactRuns(revisions[1..][..k], pr);
    forall i | 0 <= i < k + 1
      ensures DispatchRef(revisions[i]) in w2.tags && w2.tags[DispatchRef(revisions[i])] == revisions[i]
    {
      if i == 0 {
        assert DispatchRef([revisions[0]][0]) in w1.tags;
      } else {
        assert revisions[i] == revisions[1..][..k][i - 1];
      }
    }
  }

  lemma DispatchOneProgress(w: World, env: Schedule, revisions: seq<Sha>, pr: int, refs: set<Ref>)
    requires revisions != [] && DispatchRef(revisions[0]) in refs
    requires DispatchOne(w, env, revisions[0], pr).result.Failure?
    ensures var w' := DispatchOne(w, env, revisions[0], pr).world;
            Progress(w, w', env, revisions, pr, refs, 0) || Progress(w, w', env, revisions, pr, refs, 1)
  {
    DispatchOneIsExact(w, env, revisions[0], pr, refs);
    assert revisions[..1] == [revisions[0]];
  }

  /** Ordered progress: the runs a pass adds are exact runs for a prefix of the revisions, in order,
      all of them when it succeeds; the tags behind them are in place; other tags are left alone. */
  lemma {:induction false} DispatchAllProgress(
      w: World, env: Schedule, revisions: seq<Sha>, pr: int, refs: set<Ref>) returns (k: nat)
    requires forall i :: 0 <= i < |revisions| ==> DispatchRef(revisions[i]) in refs
    ensures k <= |revisions|
    ensures Progress(w, DispatchAll(w, env, revisions, pr).world, env, revisions, pr, refs, k)
    ensures DispatchAll(w, env, revisions, pr).result.Success? ==> k == |revisions|
    decreases |revisions|
  {
    if revisions == [] {
      k := 0;
    } else {
      var one := DispatchOne(w, env, revisions[0], pr);
      if one.result.Failure? {
        DispatchOneProgress(w, env, revisions, pr, refs);
        k := if Progress(w, one.world, env, revisions, pr, refs, 0) then 0 else 1;
      } else {
        DispatchOneIsExact(w, env, revisions[0], pr, refs);
        var rest := DispatchAllProgress(one.world, env, revisions[1..], pr, refs);
        ProgressExtends(w, one.world, DispatchAll(w, env, revisions, pr).world, env, revisions, pr, refs, rest);
        k := rest + 1;
      }
    }
  }

  /***** When a pass completes *****/

  lemma CallsKeepUncontested(w: World, env: Schedule, revision: Sha, pr: int, revisions: seq<Sha>)
    requires Honest(env, revisions) && Uncontested(w.tags, revisions)
    ensures Uncontested(Seen(w, env), revisions)
    ensures Uncontested(ReadRef(w, env, DispatchRef(revision)).world.tags, revisions)
    ensures Uncontested(CreateRef(w, env, DispatchRef(revision), revision).world.tags, revisions)
    ensures Uncontested(DispatchWorkflow(w, env, DispatchRef(revision), revision, pr).world.tags, revisions)
  {
    var seen := Seen(w, env);
    assert Uncontested(env(w.clock).others, revisions);
    assert Uncontested(seen, revisions);
    forall i | 0 <= i < |revisions| && DispatchRef(revisions[i]) == DispatchRef(revision)
      ensures revisions[i] == revision
    {
      RefsAreInjective(revisions[i], revision);
    }
  }

  lemma DispatchOneKeepsUncontested(w: World, env: Schedule, revision: Sha, pr: int, revisions: seq<Sha>)
    requires Honest(env, revisions) && Uncontested(w.tags, revisions)
    ensures Uncontested(DispatchOne(w, env, revision, pr).world.tags, revisions)
  {
    var ref := DispatchRef(revision);
    CallsKeepUncontested(w, env, revision, pr, revisions);
    var read := ReadRef(w, env, ref).world;
    CallsKeepUncontested(read, env, revision, pr, revisions);
    var made := CreateRef(read, env, ref, revision).world;
    CallsKeepUncontested(made, env, revision, pr, revisions);
    CallsKeepUncontested(ReadRef(made, env, ref).world, env, revision, pr, revisions);
  }

  lemma {:induction false} DispatchAllKeepsUncontested(
      w: World, env: Schedule, todo: seq<Sha>, pr: int, revisions: seq<Sha>)
    requires Honest(env, revisions) && Uncontested(w.tags, revisions)
    ensures Uncontested(DispatchAll(w, env, todo, pr).world.tags, revisions)
    decreases |todo|
  {
    if todo != [] {
      DispatchOneKeepsUncontested(w, env, todo[0], pr, revisions);
      DispatchAllKeepsUncontested(DispatchOne(w, env, todo[0], pr).world, env, todo[1..], pr, revisions);
    }
  }

  /** Without faults a pass completes unless another actor has pointed a revision's tag elsewhere. */
  lemma {:induction false} CompletesIffUncontested(w: World, env: Schedule, revisions: seq<Sha>, pr: int)
    requires forall i :: 0 <= i < |revisions| ==> FullSha(revisions[i])
    requires FaultFree(env, w.clock)
    ensures var step := DispatchAll(w, env, revisions, pr);
            step.result.Success? <==> Uncontested(step.world.tags, revisions)
    decreases |revisions|
  {
    var step := DispatchAll(w, env, revisions, pr);
    if step.result.Success? {
      var k := DispatchAllProgress(w, env, revisions, pr, RefsOf(revisions));
      assert revisions[..k] == revisions;
    } else {
      var one := DispatchOne(w, env, revisions[0], pr);
      if one.result.Success? {
        CompletesIffUncontested(one.world, env, revisions[1..], pr);
        var i :| 0 <= i < |revisions[1..]| && DispatchRef(revisions[1..][i]) in step.world.tags
                 && step.world.tags[DispatchRef(revisions[1..][i])] != revisions[1..][i];
        assert revisions[i + 1] == revisions[1..][i];
      }
    }
  }

  /***** Whole runs *****/

  lemma {:induction false} AncestryExact(revisions: seq<Sha>, onMain: Sha -> Result<bool, Error>)
    ensures CheckAncestry(revisions, onMain) == None <==>
            forall i :: 0 <= i < |revisions| ==> onMain(revisions[i]) == Success(true)
  {
    if revisions != [] {
      AncestryExact(revisions[1..], onMain);
      if forall i :: 0 <= i < |revisions| ==> onMain(revisions[i]) == Success(true) {
        assert forall i :: 0 <= i < |revisions[1..]| ==> revisions[1..][i] == revisions[i + 1];
      } else {
        var i :| 0 <= i < |revisions| && onMain(revisions[i]) != Success(true);
        if i > 0 { assert revisions[1..][i - 1] == revisions[i]; }
      }
    }
  }

  // e is the first thing wrong with the ancestry of the revisions, in order.
  ghost predicate OffMainAt(revisions: seq<Sha>, onMain: Sha -> Result<bool, Error>, e: Error, i: nat) {
    && i < |revisions| && (forall j :: 0 <= j < i ==> onMain(revisions[j]) == Success(true))
    && (onMain(revisions[i]) == Failure(e) || (onMain(revisions[i]) == Success(false) && e == Dispatch(NotOnMain)))
  }

  lemma {:induction false} AncestryError(revisions: seq<Sha>, onMain: Sha -> Result<bool, Error>, e: Error) returns (i: nat)
    requires CheckAncestry(revisions, onMain) == Some(e)
    ensures OffMainAt(revisions, onMain, e, i)
  {
    i := 0;
    if onMain(revisions[0]) == Success(true) {
      var rest := AncestryError(revisions[1..], onMain, e);
      i := rest + 1;
      assert revisions[i] == revisions[1..][rest];
      forall j | 0 <= j < i ensures onMain(revisions[j]) == Success(true) {
        if j > 0 { assert revisions[1..][j - 1] == revisions[j]; }
      }
    }
  }

  // What a preflight that could read the policy raises: the first thing that is wrong.
  ghost predicate Refuses(inputs: Inputs, e: Error) {
    if inputs.methods != (false, false, true) then e == Dispatch(NotRebaseOnly)
    else
      match inputs.source(inputs.pr.mergeCommitSha, inputs.pr.commitCount)
      case Failure(unread) => e == unread
      case Success(revisions) =>
        if |revisions| != inputs.pr.commitCount then e == Dispatch(WrongCommitCount)
        else if revisions == [] || revisions[|revisions| - 1] != inputs.pr.mergeCommitSha then e == Dispatch(NotAnchored)
        else if !Distinct(revisions) || exists i :: 0 <= i < |revisions| && !FullSha(revisions[i]) then
          e == Dispatch(InvalidOrDuplicate)
        else exists i: nat :: OffMainAt(revisions, inputs.onMain, e, i)
  }

  lemma PreflightRaisesFirst(w: World, env: Schedule, inputs: Inputs, e: Error)
    requires env(w.clock).fault.Healthy? && Preflight(w, env, inputs).result == Failure(e)
    ensures Refuses(inputs, e)
  {
    var listed := inputs.source(inputs.pr.mergeCommitSha, inputs.pr.commitCount);
    if listed.Success? {
      DuplicatesExact(listed.value);
      if CheckAncestry(listed.value, inputs.onMain) == Some(e) {
        var i := AncestryError(listed.value, inputs.onMain, e);
      }
    }
  }

  /** The preflight passes exactly the admissible inputs, and whatever it decides it has changed
      nothing: no run is dispatched and the tags are what the other actors made them. */
  lemma PreflightIsAllOrNothing(w: World, env: Schedule, inputs: Inputs)
    ensures Preflight(w, env, inputs).world == World(env(w.clock).others + w.tags, w.runs, w.calls + [PolicyRead])
    ensures forall revisions :: Preflight(w, env, inputs).result == Success(revisions) <==>
              env(w.clock).fault.Healthy? && Admissible(inputs, revisions)
  {
    forall revisions
      ensures Preflight(w, env, inputs).result == Success(revisions) <==>
                env(w.clock).fault.Healthy? && Admissible(inputs, revisions)
    {
      DuplicatesExact(revisions);
      AncestryExact(revisions, inputs.onMain);
    }
  }

  /** Every run, whatever the schedule: a failed preflight dispatches nothing; after it the runs
      added are exact runs for the first k revisions, all of them on a normal return. */
  lemma RunProgress(w: World, env: Schedule, inputs: Inputs) returns (revisions: seq<Sha>, k: nat)
    ensures var run := Run(w, env, inputs);
            && k <= |revisions|
            && Progress(w, run.world, env, revisions, inputs.pr.number, RefsOf(revisions), k)
            && (run.result.Success? ==> run.result == Success(revisions) && k == |revisions|)
            && (if Preflight(w, env, inputs).result.Success? then Admissible(inputs, revisions)
                else run.result.Failure? && revisions == [])
  {
    PreflightIsAllOrNothing(w, env, inputs);
    var checked := Preflight(w, env, inputs);
    if checked.result.Failure? {
      revisions, k := [], 0;
      InterferenceOnly(w, env, PolicyRead, RefsOf(revisions));
    } else {
      revisions := checked.result.value;
      k := DispatchAllProgress(checked.world, env, revisions, inputs.pr.number, RefsOf(revisions));
      InterferenceOnly(w, env, PolicyRead, RefsOf(revisions));
      WithinComposes(w, checked.world, Run(w, env, inputs).world, env, RefsOf(revisions));
    }
  }

  /** Safety: each workflow run a dispatcher run adds was accepted while the tag it names pointed at
      the very revision it was dispatched for. */
  lemma EveryRunIsExact(w: World, env: Schedule, inputs: Inputs)
    ensures var run := Run(w, env, inputs).world;
            && |w.runs| <= |run.runs| && run.runs[..|w.runs|] == w.runs
            && forall i :: |w.runs| <= i < |run.runs| ==>
                 && run.runs[i].headSha == run.runs[i].expectedSha
                 && run.runs[i].ref == DispatchRef(run.runs[i].headSha)
                 && run.runs[i].triggeringPr == inputs.pr.number
                 && run.runs[i].ref in run.tags && run.tags[run.runs[i].ref] == run.runs[i].headSha
  {
    var revisions, k := RunProgress(w, env, inputs);
    var run := Run(w, env, inputs).world;
    forall i | |w.runs| <= i < |run.runs|
      ensures run.runs[i] == ExactRun(revisions[i - |w.runs|], inputs.pr.number)
      ensures run.runs[i].ref in run.tags && run.tags[run.runs[i].ref] == run.runs[i].headSha
    {
      assert run.runs[i] == ExactRuns(revisions[..k], inputs.pr.number)[i - |w.runs|];
      assert revisions[..k][i - |w.runs|] == revisions[i - |w.runs|];
    }
  }

  /** Recovery: if nobody points a revision's tag elsewhere, then however the first run ended, a
      second run without faults completes, dispatches every revision once more in order, and leaves
      each tag of the pull request where one undisturbed run would have left it. */
  lemma RerunRecovers(w: World, env: Schedule, inputs: Inputs, revisions: seq<Sha>, calm: Schedule) returns (k: nat)
    requires Admissible(inputs, revisions)
    requires Uncontested(w.tags, revisions) && Honest(env, revisions)
    requires FaultFree(env, Run(w, env, inputs).world.clock)
    requires forall n: nat :: calm(n) == Turn(map[], Healthy)
    ensures var crashed := Run(w, env, inputs).world;
            var rerun := Run(crashed, env, inputs);
            var clean := Run(w, calm, inputs);
            && k <= |revisions|
            && crashed.runs == w.runs + ExactRuns(revisions[..k], inputs.pr.number)
            && rerun.result == Success(revisions) && clean.result == Success(revisions)
            && rerun.world.runs == crashed.runs + ExactRuns(revisions, inputs.pr.number)
            && Tagged(rerun.world.tags, revisions)
            && forall i :: 0 <= i < |revisions| ==>
                 SameAt(rerun.world.tags, clean.world.tags, DispatchRef(revisions[i]))
  {
    var crashed := Run(w, env, inputs).world;
    k := CrashedPrefix(w, env, inputs, revisions);
    RunKeepsUncontested(w, env, inputs, revisions);
    FaultFreeRunCompletes(crashed, env, inputs, revisions);
    assert forall n: nat :: calm(n).others == map[];
    assert Honest(calm, revisions);
    FaultFreeRunCompletes(w, calm, inputs, revisions);
  }

  lemma CrashedPrefix(w: World, env: Schedule, inputs: Inputs, revisions: seq<Sha>) returns (k: nat)
    requires Admissible(inputs, revisions)
    ensures k <= |revisions|
    ensures Run(w, env, inputs).world.runs == w.runs + ExactRuns(revisions[..k], inputs.pr.number)
  {
    var done, n := RunProgress(w, env, inputs);
    k := n;
    if done == [] {
      assert revisions[..0] == done[..0];
    }
  }

  lemma RunKeepsUncontested(w: World, env: Schedule, inputs: Inputs, revisions: seq<Sha>)
    requires Honest(env, revisions) && Uncontested(w.tags, revisions)
    ensures Uncontested(Run(w, env, inputs).world.tags, revisions)
  {
    PreflightIsAllOrNothing(w, env, inputs);
    var checked := Preflight(w, env, inputs);
    assert Uncontested(env(w.clock).others, revisions);
    if checked.result.Success? {
      DispatchAllKeepsUncontested(checked.world, env, checked.result.value, inputs.pr.number, revisions);
    }
  }

  lemma FaultFreeRunCompletes(w: World, env: Schedule, inputs: Inputs, revisions: seq<Sha>)
    requires Admissible(inputs, revisions)
    requires Uncontested(w.tags, revisions) && Honest(env, revisions) && FaultFree(env, w.clock)
    ensures var run := Run(w, env, inputs);
            && run.result == Success(revisions)
            && run.world.runs == w.runs + ExactRuns(revisions, inputs.pr.number)
            && Tagged(run.world.tags, revisions)
  {
    PreflightIsAllOrNothing(w, env, inputs);
    var checked := Preflight(w, env, inputs).world;
    RunKeepsUncontested(w, env, inputs, revisions);
    CompletesIffUncontested(checked, env, revisions, inputs.pr.number);
    var k := DispatchAllProgress(checked, env, revisions, inputs.pr.number, RefsOf(revisions));
    assert revisions[..|revisions|] == revisions;
  }

  /** The runs of one pass over distinct revisions name each revision once. */
  lemma {:induction false} ExactRunsOnce(revisions: seq<Sha>, pr: int, revision: Sha)
    requires Distinct(revisions)
    ensures multiset(ExactRuns(revisions, pr))[ExactRun(revision, pr)] == if revision in revisions then 1 else 0
  {
    if revisions != [] {
      var last := |revisions| - 1;
      var init := revisions[..last];
      ExactRunsOnce(init, pr, revision);
      assert revisions == init + [revisions[last]];
      assert ExactRuns(revisions, pr) == ExactRuns(init, pr) + [ExactRun(revisions[last], pr)];
    }
  }

  /***** The order of dispatch *****/

  // What `git rev-list -n count tip` prints for a history in which every commit has one parent.
  function RevList(parent: Sha -> Option<Sha>, tip: Sha, count: nat): (listing: seq<Sha>)
    ensures |listing| <= count
    ensures count > 0 ==> listing != [] && listing[0] == tip
    decreases count
  {
    if count == 0 then []
    else [tip] + match parent(tip)
                 case None => []
                 case Some(p) => RevList(parent, p, count - 1)
  }

  function GitRevisions(listing: seq<Sha>): seq<Sha> { Reversed(listing) }

  // Each listed commit is followed by its parent, and the listing stops early only at a root.
  ghost predicate FollowsParents(parent: Sha -> Option<Sha>, listing: seq<Sha>, count: nat) {
    && (forall i :: 0 <= i < |listing| - 1 ==> parent(listing[i]) == Some(listing[i + 1]))
    && (0 < |listing| < count ==> parent(listing[|listing| - 1]) == None)
  }

  ghost predicate GoesDown(depth: Sha -> nat, listing: seq<Sha>) {
    forall i, j :: 0 <= i < j < |listing| ==> depth(listing[j]) < depth(listing[i])
  }

  lemma OneMoreParent(parent: Sha -> Option<Sha>, depth: Sha -> nat, tip: Sha, rest: seq<Sha>, count: nat)
    requires count > 0 && FollowsParents(parent, rest, count - 1) && GoesDown(depth, rest)
    requires rest != [] ==> parent(tip) == Some(rest[0]) && depth(rest[0]) < depth(tip)
    requires rest == [] && count > 1 ==> parent(tip) == None
    ensures FollowsParents(parent, [tip] + rest, count) && GoesDown(depth, [tip] + rest)
  {
  }

  lemma {:induction false} RevListFollowsParents(parent: Sha -> Option<Sha>, depth: Sha -> nat, tip: Sha, count: nat)
    requires forall s :: parent(s).Some? ==> depth(parent(s).value) < depth(s)
    ensures FollowsParents(parent, RevList(parent, tip, count), count) && GoesDown(depth, RevList(parent, tip, count))
    decreases count
  {
    if count > 0 {
      var rest := match parent(tip) case None => [] case Some(p) => RevList(parent, p, count - 1);
      if parent(tip).Some? { RevListFollowsParents(parent, depth, parent(tip).value, count - 1); }
      OneMoreParent(parent, depth, tip, rest, count);
    }
  }

  /** In a linear history the revisions of a pull request come out parents first, end at the merge
      commit and are distinct; fewer than asked for means that the history begins there. */
  lemma ParentsFirst(parent: Sha -> Option<Sha>, depth: Sha -> nat, tip: Sha, count: nat)
    requires forall s :: parent(s).Some? ==> depth(parent(s).value) < depth(s)
    requires count > 0
    ensures var revisions := GitRevisions(RevList(parent, tip, count));
            && revisions != [] && revisions[|revisions| - 1] == tip
            && (forall i :: 0 <= i < |revisions| - 1 ==> parent(revisions[i + 1]) == Some(revisions[i]))
            && Distinct(revisions)
            && (|revisions| != count ==> parent(revisions[0]) == None)
  {
    RevListFollowsParents(parent, depth, tip, count);
    var listing := RevList(parent, tip, count);
    var revisions := GitRevisions(listing);
    forall i, j | 0 <= i < j < |revisions|
      ensures revisions[i] != revisions[j]
    {
      assert depth(listing[|listing| - 1 - i]) < depth(listing[|listing| - 1 - j]);
    }
    forall i | 0 <= i < |revisions| - 1
      ensures parent(revisions[i + 1]) == Some(revisions[i])
    {
      assert parent(listing[|listing| - 2 - i]) == Some(listing[|listing| - 2 - i + 1]);
    }
  }
}

/** One run of the dispatcher as a function of the remote and the schedule, and what every run keeps. */
module DispatchRun {
  import opened Common
  import opened DispatchRemote

  datatype MergedPullRequest = MergedPullRequest(mergeCommitSha: Sha, commitCount: int, number: int)

  const REBASE_ONLY := (false, false, true)

  // The answers the run takes from outside the remote.
  datatype Inputs = Inputs(
    pr: MergedPullRequest,
    methods: (bool, bool, bool),
    source: (Sha, int) -> Result<seq<Sha>, Error>,
    onMain: Sha -> Result<bool, Error>)

  /***** The run *****/

  predicate HasDuplicates(s: seq<Sha>) { |set r | r in s| != |s| }

  function CheckRevisions(pr: MergedPullRequest, revisions: seq<Sha>): Option<Error> {
    if |revisions| != pr.commitCount then Some(Dispatch(WrongCommitCount))
    else if revisions == [] || revisions[|revisions| - 1] != pr.mergeCommitSha then Some(Dispatch(NotAnchored))
    else if HasDuplicates(revisions) || exists i :: 0 <= i < |revisions| && !FullSha(revisions[i]) then
      Some(Dispatch(InvalidOrDuplicate))
    else None
  }

  function CheckAncestry(revisions: seq<Sha>, onMain: Sha -> Result<bool, Error>): Option<Error> {
    if revisions == [] then None
    else match onMain(revisions[0])
      case Failure(e) => Some(e)
      case Success(on) =>
        if !on then Some(Dispatch(NotOnMain)) else CheckAncestry(revisions[1..], onMain)
  }

  function EnsureTag(w: World, env: Schedule, revision: Sha): Step<()> {
    var ref := DispatchRef(revision);
    var read := ReadRef(w, env, ref);
    match read.result
    case Failure(e) => Step(read.world, Failure(e))
    case Success(Some(existing)) =>
      Step(read.world, if existing == revision then Success(()) else Failure(Dispatch(TagConflict)))
    case Success(None) =>
      var made := CreateRef(read.world, env, ref, revision);
      match made.result
      case Success(_) => made
      case Failure(e) =>
        if e != Api(ALREADY_EXISTS) then made
        else
          var again := ReadRef(made.world, env, ref);
          match again.result
          case Failure(e') => Step(again.world, Failure(e'))
          case Success(found) =>
            Step(again.world, if found == Some(revision) then Success(()) else Failure(e))
  }

  function DispatchOne(w: World, env: Schedule, revision: Sha, pr: int): Step<()> {
    var tagged := EnsureTag(w, env, revision);
    if tagged.result.Failure? then tagged
    else DispatchWorkflow(tagged.world, env, DispatchRef(revision), revision, pr)
  }

  function DispatchAll(w: World, env: Schedule, revisions: seq<Sha>, pr: int): Step<()>
    decreases |revisions|
  {
    if revisions == [] then Step(w, Success(()))
    else
      var one := DispatchOne(w, env, revisions[0], pr);
      if one.result.Failure? then one else DispatchAll(one.world, env, revisions[1..], pr)
  }

  function Preflight(w: World, env: Schedule, inputs: Inputs): Step<seq<Sha>> {
    var policy := ReadMergeMethods(w, env, inputs.methods);
    match policy.result
    case Failure(e) => Step(policy.world, Failure(e))
    case Success(methods) =>
      if methods != REBASE_ONLY then Step(policy.world, Failure(Dispatch(NotRebaseOnly)))
      else match inputs.source(inputs.pr.mergeCommitSha, inputs.pr.commitCount)
        case Failure(e) => Step(policy.world, Failure(e))
        case Success(revisions) =>
          match CheckRevisions(inputs.pr, revisions)
          case Some(e) => Step(policy.world, Failure(e))
          case None =>
            match CheckAncestry(revisions, inputs.onMain)
            case Some(e) => Step(policy.world, Failure(e))
            case None => Step(policy.world, Success(revisions))
  }

  function Run(w: World, env: Schedule, inputs: Inputs): Step<seq<Sha>> {
    var checked := Preflight(w, env, inputs);
    match checked.result
    case Failure(_) => checked
    case Success(revisions) =>
      var all := DispatchAll(checked.world, env, revisions, inputs.pr.number);
      match all.result
      case Failure(e) => Step(all.world, Failure(e))
      case Success(_) => Step(all.world, Success(revisions))
  }

  /***** What a run promises *****/

  // The run that a dispatch of revision must leave behind: on its own tag, at its own tree.
  function ExactRun(revision: Sha, pr: int): WorkflowRun {
    WorkflowRun(DispatchRef(revision), revision, pr, revision)
  }

  ghost function ExactRuns(revisions: seq<Sha>, pr: int): (runs: seq<WorkflowRun>)
    ensures |runs| == |revisions|
    ensures forall i :: 0 <= i < |runs| ==> runs[i] == ExactRun(revisions[i], pr)
  {
    seq(|revisions|, i requires 0 <= i < |revisions| => ExactRun(revisions[i], pr))
  }

  // What the preflight demands of one pull request's history.
  ghost predicate Admissible(inputs: Inputs, revisions: seq<Sha>) {
    && inputs.methods == REBASE_ONLY
    && inputs.source(inputs.pr.mergeCommitSha, inputs.pr.commitCount) == Success(revisions)
    && |revisions| == inputs.pr.commitCount
    && revisions != [] && revisions[|revisions| - 1] == inputs.pr.mergeCommitSha
    && Distinct(revisions)
    && forall i :: 0 <= i < |revisions| ==> FullSha(revisions[i]) && inputs.onMain(revisions[i]) == Success(true)
  }

  ghost function RefsOf(revisions: seq<Sha>): set<Ref> { set r | r in revisions :: DispatchRef(r) }

  // From w to w' tags are only added, and away from refs they are what other actors alone made them.
  ghost predicate Within(w: World, w': World, env: Schedule, refs: set<Ref>) {
    && w.clock <= w'.clock
    && Extends(w.tags, w'.tags)
    && forall ref :: ref !in refs ==> SameAt(w'.tags, OthersOnly(w.tags, env, w.clock, w'.clock), ref)
  }

  // Every tag of revisions points at its own revision.
  ghost predicate Tagged(tags: map<Ref, Sha>, revisions: seq<Sha>) {
    forall i :: 0 <= i < |revisions| ==>
      DispatchRef(revisions[i]) in tags && tags[DispatchRef(revisions[i])] == revisions[i]
  }

  // No tag of revisions points anywhere else.
  ghost predicate Uncontested(tags: map<Ref, Sha>, revisions: seq<Sha>) {
    forall i :: 0 <= i < |revisions| && DispatchRef(revisions[i]) in tags ==>
      tags[DispatchRef(revisions[i])] == revisions[i]
  }

  // Whenever other actors name a tag of revisions, they point it at its own revision.
  ghost predicate Honest(env: Schedule, revisions: seq<Sha>) {
    forall k: nat :: Uncontested(env(k).others, revisions)
  }

  // From call number lo on, no call fails.
  ghost predicate FaultFree(env: Schedule, lo: nat) {
    forall k: nat :: lo <= k ==> env(k).fault.Healthy?
  }

  // The set of the revisions is smaller than their list exactly when one is repeated.
  lemma DuplicatesExact(s: seq<Sha>)
    ensures HasDuplicates(s) <==> !Distinct(s)
  {
    DistinctSize(s);
  }
}

/** The dispatcher as it runs: a client object whose calls change the remote, and the loop over it. */
module Dispatcher {
  import opened Common
  import opened DispatchRemote
  import opened DispatchRun
  import opened DispatchTheorems
  import opened DispatchTranscript

  class GitHubClient {
    const schedule: Schedule
    const methods: (bool, bool, bool)
    var tags: map<Ref, Sha>
    var runs: seq<WorkflowRun>
    var calls: seq<Call>

    constructor (schedule: Schedule, methods: (bool, bool, bool), tags: map<Ref, Sha>)
      ensures this.schedule == schedule && this.methods == methods
      ensures State() == World(tags, [], [])
    {
      this.schedule := schedule;
      this.methods := methods;
      this.tags := tags;
      runs := [];
      calls := [];
    }

    ghost function State(): World
      reads this
    {
      World(tags, runs, calls)
    }

    // The other actors move, and the fault of the call that is about to be made is drawn.
    method BeginCall() returns (fault: Fault)
      modifies `tags
      ensures tags == Seen(old(State()), schedule)
      ensures fault == schedule(|calls|).fault
    {
      var turn := schedule(|calls|);
      tags := turn.others + tags;
      fault := turn.fault;
    }

    method MergeMethods() returns (r: Result<(bool, bool, bool), Error>)
      modifies this
      ensures Step(State(), r) == ReadMergeMethods(old(State()), schedule, methods)
    {
      var fault := BeginCall();
      r := if fault.Healthy? then Success(methods) else Failure(fault.error);
      calls := calls + [PolicyRead];
    }

    method DispatchRefSha(ref: Ref) returns (r: Result<Option<Sha>, Error>)
      modifies this
      ensures Step(State(), r) == ReadRef(old(State()), schedule, ref)
    {
      var fault := BeginCall();
      if !fault.Healthy? {
        r := if fault.error == Api(NOT_FOUND) then Success(None) else Failure(fault.error);
      } else if ref !in tags {
        r := Success(None);
      } else {
        r := if FullSha(tags[ref]) then Success(Some(tags[ref])) else Failure(Dispatch(InvalidResponse));
      }
      calls := calls + [TagRead(ref, r)];
    }

    method CreateDispatchRef(ref: Ref, revision: Sha) returns (r: Result<(), Error>)
      modifies this
      ensures Step(State(), r) == CreateRef(old(State()), schedule, ref, revision)
    {
      var fault := BeginCall();
      var taken := ref in tags;
      if !fault.RequestLost? && !taken { tags := tags[ref := revision]; }
      if fault.Healthy? {
        r := if taken then Failure(Api(ALREADY_EXISTS)) else Success(());
      } else {
        r := Failure(fault.error);
      }
      calls := calls + [TagCreate(ref, revision, r)];
    }

    method StartWorkflow(ref: Ref, revision: Sha, pr: int) returns (r: Result<(), Error>)
      modifies this
      ensures Step(State(), r) == DispatchWorkflow(old(State()), schedule, ref, revision, pr)
    {
      var fault := BeginCall();
      var resolved := ref in tags;
      if !fault.RequestLost? && resolved { runs := runs + [WorkflowRun(ref, revision, pr, tags[ref])]; }
      if fault.Healthy? {
        r := if resolved then Success(()) else Failure(Api(ALREADY_EXISTS));
      } else {
        r := Failure(fault.error);
      }
      calls := calls + [WorkflowStart(ref, revision, pr, r)];
    }
  }

  method DispatchRevision(github: GitHubClient, revision: Sha, pr: int) returns (r: Result<(), Error>)
    modifies github
    ensures Step(github.State(), r) == DispatchOne(old(github.State()), github.schedule, revision, pr)
  {
    var dispatchRef := DispatchRef(revision);
    var existing := github.DispatchRefSha(dispatchRef);
    if existing.Failure? { return Failure(existing.error); }
    if existing.value == None {
      var created := github.CreateDispatchRef(dispatchRef, revision);
      if created.Failure? {
        if created.error != Api(ALREADY_EXISTS) { return created; }
        var again := github.DispatchRefSha(dispatchRef);
        if again.Failure? { return Failure(again.error); }
        if again.value != Some(revision) { return created; }
      }
    } else if existing.value != Some(revision) {
      return Failure(Dispatch(TagConflict));
    }
    r := github.StartWorkflow(dispatchRef, revision, pr);
  }

  method CheckOnMain(revisions: seq<Sha>, onMain: Sha -> Result<bool, Error>) returns (error: Option<Error>)
    ensures error == CheckAncestry(revisions, onMain)
  {
    for i := 0 to |revisions|
      invariant CheckAncestry(revisions, onMain) == CheckAncestry(revisions[i..], onMain)
    {
      var on := onMain(revisions[i]);
      if on.Failure? { return Some(on.error); }
      if !on.value { return Some(Dispatch(NotOnMain)); }
      assert revisions[i..][1..] == revisions[i + 1..];
    }
    error := None;
  }

  // What the theorems say of a whole run, together.
  lemma RunPromises(w: World, env: Schedule, inputs: Inputs)
    ensures var run := Run(w, env, inputs);
            && FaultsDecided(w, env, run)
            && Extends(w.tags, run.world.tags) && w.runs <= run.world.runs
            && (forall i :: |w.runs| <= i < |run.world.runs| ==>
                  run.world.runs[i] == ExactRun(run.world.runs[i].expectedSha, inputs.pr.number))
            && (run.result.Success? ==>
                  && Admissible(inputs, run.result.value) && Tagged(run.world.tags, run.result.value)
                  && run.world.runs == w.runs + ExactRuns(run.result.value, inputs.pr.number))
  {
    EveryRunIsExact(w, env, inputs);
    FaultsDecide(w, env, inputs);
    var done, k := RunProgress(w, env, inputs);
    assert done[..|done|] == done;
  }

  /** `dispatch_merged_pull_request`: check everything first, then tag and dispatch revision by revision. */
  method DispatchMergedPullRequest(
      pr: MergedPullRequest, github: GitHubClient,
      source: (Sha, int) -> Result<seq<Sha>, Error>, onMain: Sha -> Result<bool, Error>)
      returns (r: Result<seq<Sha>, Error>)
    modifies github
    ensures Step(github.State(), r) ==
              Run(old(github.State()), github.schedule, Inputs(pr, github.methods, source, onMain))
    ensures FaultsDecided(old(github.State()), github.schedule, Step(github.State(), r))
    ensures Extends(old(github.tags), github.tags)
    ensures old(github.runs) <= github.runs
    ensures forall i :: |old(github.runs)| <= i < |github.runs| ==>
              github.runs[i] == ExactRun(github.runs[i].expectedSha, pr.number)
    ensures r.Success? ==>
              && Admissible(Inputs(pr, github.methods, source, onMain), r.value)
              && Tagged(github.tags, r.value)
              && github.runs == old(github.runs) + ExactRuns(r.value, pr.number)
  {
    ghost var inputs := Inputs(pr, github.methods, source, onMain);
    RunPromises(github.State(), github.schedule, inputs);
    var methods := github.MergeMethods();
    if methods.Failure? { return Failure(methods.error); }
    if methods.value != REBASE_ONLY { return Failure(Dispatch(NotRebaseOnly)); }
    var listed := source(pr.mergeCommitSha, pr.commitCount);
    if listed.Failure? { return listed; }
    var revisions := listed.value;
    var rejected := CheckRevisions(pr, revisions);
    if rejected.Some? { return Failure(rejected.value); }
    var offMain := CheckOnMain(revisions, onMain);
    if offMain.Some? { return Failure(offMain.value); }

    ghost var checked := github.State();
    for i := 0 to |revisions|
      invariant DispatchAll(checked, github.schedule, revisions, pr.number) ==
                DispatchAll(github.State(), github.schedule, revisions[i..], pr.number)
    {
      assert revisions[i..][0] == revisions[i] && revisions[i..][1..] == revisions[i + 1..];
      var dispatched := DispatchRevision(github, revisions[i], pr.number);
      if dispatched.Failure? { return Failure(dispatched.error); }
    }
    r := Success(revisions);
  }
}

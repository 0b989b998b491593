/** From the merge event to the dispatch: what the event must say, and that in a linear history what it
    says is enough for the preflight. */
module DispatchEvent {
  import opened Common
  import opened DispatchRemote
  import opened DispatchRun
  import opened DispatchTheorems
  import opened LineText

  // A JSON value as far as the event parser tells values apart; booleans are not taken for integers.
  datatype Value = Missing | Boolean(b: bool) | Integer(n: int) | Word(text: string) | Other

  datatype PullRequest = PullRequest(
    merged: Value, baseRef: Value, mergeCommitSha: Value, commits: Value, number: Value)

  // pullRequest is None when it is missing or no object; so is its base, as a Missing baseRef.
  datatype Event = Event(action: Value, pullRequest: Option<PullRequest>)

  predicate IsRepositoryChar(c: char) {
    IsAlphanumeric(c) || c == '_' || c == '.' || c == '-'
  }

  lemma RepositoryCharacters(c: char)
    ensures IsRepositoryChar(c) <==> IsAlphanumeric(c) || c in {'_', '.', '-'}
  {
  }

  // owner/name, both of them non-empty.
  ghost predicate IsRepository(text: string) {
    exists slash :: 0 < slash < |text| - 1 && text[slash] == '/' &&
      forall i :: 0 <= i < |text| && i != slash ==> IsRepositoryChar(text[i])
  }

  predicate MatchesRepository(text: string): (matches: bool)
    ensures matches <==> IsRepository(text)
  {
    var n := RunLength(text, IsRepositoryChar);
    0 < n < |text| && text[n] == '/' &&
    var name := text[n + 1..];
    assert forall i :: 0 <= i < |name| ==> name[i] == text[n + 1 + i];
    name != "" && RunLength(name, IsRepositoryChar) == |name|
  }

  ghost predicate Merged(event: Event) {
    && event.pullRequest.Some? && event.action == Word("closed")
    && event.pullRequest.value.merged == Boolean(true) && event.pullRequest.value.baseRef == Word("main")
  }

  datatype EventError = NoPullRequest | NotMergedIntoMain | BadMergeCommit | BadCommitCount | BadNumber | BadRepository

  ghost predicate IsPositive(v: Value) { v.Integer? && v.n >= 1 }

  ghost predicate IsCommit(v: Value) { v.Word? && FullSha(v.text) }

  // The error names the first thing that is wrong with the event.
  ghost predicate IsFirstFault(event: Event, repository: string, e: EventError) {
    if event.pullRequest.None? then e == NoPullRequest
    else
      var pull := event.pullRequest.value;
      match e
      case NoPullRequest => false
      case NotMergedIntoMain => !Merged(event)
      case BadMergeCommit => Merged(event) && !IsCommit(pull.mergeCommitSha)
      case BadCommitCount => Merged(event) && IsCommit(pull.mergeCommitSha) && !IsPositive(pull.commits)
      case BadNumber =>
        Merged(event) && IsCommit(pull.mergeCommitSha) && IsPositive(pull.commits) && !IsPositive(pull.number)
      case BadRepository =>
        && Merged(event) && IsCommit(pull.mergeCommitSha) && IsPositive(pull.commits) && IsPositive(pull.number)
        && !IsRepository(repository)
  }

  // pr is what the pull request object says, with a full merge commit and positive counts.
  ghost predicate Carries(pull: PullRequest, pr: MergedPullRequest) {
    && pull.mergeCommitSha == Word(pr.mergeCommitSha) && FullSha(pr.mergeCommitSha)
    && pull.commits == Integer(pr.commitCount) && pr.commitCount >= 1
    && pull.number == Integer(pr.number) && pr.number >= 1
  }

  method MergedPullRequestFromEvent(event: Event, repository: string) returns (r: Result<MergedPullRequest, EventError>)
    ensures r.Success? <==>
              && Merged(event) && IsRepository(repository)
              && (exists pr: MergedPullRequest :: Carries(event.pullRequest.value, pr))
    ensures r.Success? ==> Carries(event.pullRequest.value, r.value)
    ensures r.Failure? ==> IsFirstFault(event, repository, r.error)
  {
    if event.pullRequest.None? { return Failure(NoPullRequest); }
    var pull := event.pullRequest.value;
    if event.action != Word("closed") || pull.merged != Boolean(true) { return Failure(NotMergedIntoMain); }
    if pull.baseRef != Word("main") { return Failure(NotMergedIntoMain); }
    if !pull.mergeCommitSha.Word? || !FullSha(pull.mergeCommitSha.text) { return Failure(BadMergeCommit); }
    if !pull.commits.Integer? || pull.commits.n < 1 { return Failure(BadCommitCount); }
    if !pull.number.Integer? || pull.number.n < 1 { return Failure(BadNumber); }
    if !MatchesRepository(repository) { return Failure(BadRepository); }
    var pr := MergedPullRequest(pull.mergeCommitSha.text, pull.commits.n, pull.number.n);
    assert Carries(pull, pr);
    r := Success(pr);
  }

  /** In a linear history of full commit ids with enough commits, all of them on main, the revisions that
      the run enumerates are admissible, and parents come before their children. */
  lemma LinearHistoryIsAdmissible(inputs: Inputs, parent: Sha -> Option<Sha>, depth: Sha -> nat) returns (revisions: seq<Sha>)
    requires inputs.pr.commitCount >= 1 && inputs.methods == REBASE_ONLY
    requires forall s :: parent(s).Some? ==> depth(parent(s).value) < depth(s)
    requires |RevList(parent, inputs.pr.mergeCommitSha, inputs.pr.commitCount)| == inputs.pr.commitCount
    requires inputs.source(inputs.pr.mergeCommitSha, inputs.pr.commitCount) ==
               Success(GitRevisions(RevList(parent, inputs.pr.mergeCommitSha, inputs.pr.commitCount)))
    requires forall s :: s in RevList(parent, inputs.pr.mergeCommitSha, inputs.pr.commitCount) ==>
               FullSha(s) && inputs.onMain(s) == Success(true)
    ensures Admissible(inputs, revisions)
    ensures forall i :: 0 <= i < |revisions| - 1 ==> parent(revisions[i + 1]) == Some(revisions[i])
  {
    var listing := RevList(parent, inputs.pr.mergeCommitSha, inputs.pr.commitCount);
    ParentsFirst(parent, depth, inputs.pr.mergeCommitSha, inputs.pr.commitCount);
    revisions := GitRevisions(listing);
    ListedPass(inputs, listing);
  }

  lemma ListedPass(inputs: Inputs, listing: seq<Sha>)
    requires forall s :: s in listing ==> FullSha(s) && inputs.onMain(s) == Success(true)
    ensures var revisions := GitRevisions(listing);
            forall i :: 0 <= i < |revisions| ==> FullSha(revisions[i]) && inputs.onMain(revisions[i]) == Success(true)
  {
    var revisions := GitRevisions(listing);
    forall i | 0 <= i < |revisions|
      ensures FullSha(revisions[i]) && inputs.onMain(revisions[i]) == Success(true)
    {
      assert revisions[i] == listing[|listing| - 1 - i] && listing[|listing| - 1 - i] in listing;
    }
  }
}

/** The shared remote that the dispatcher talks to, one call at a time.

    Everything the dispatcher does not control is a schedule: before each call other actors may
    create tags, and the call itself may fail before it reaches the remote or after it took effect.
    A crash of the dispatcher is the failure of the call it was making.  The functions here give the
    remote's answer to one call; `DispatchRun` composes them, `Dispatcher` runs them on an object. */
module DispatchRemote {
  import opened Common

  type Sha = string
  type Ref = string

  const SHA_LENGTH: nat := 40
  const ALREADY_EXISTS: int := 422
  const NOT_FOUND: int := 404

  predicate FullSha(s: Sha) {
    |s| == SHA_LENGTH && forall c :: c in s ==> '0' <= c <= '9' || 'a' <= c <= 'f'
  }

  const REF_PREFIX := "main-releasability-"

  function DispatchRef(revision: Sha): Ref { REF_PREFIX + revision }

  datatype Reason =
    | Unavailable | InvalidResponse | NotRebaseOnly | WrongCommitCount | NotAnchored | InvalidOrDuplicate
    | NotOnMain | TagConflict

  datatype Error = Api(status: int) | Dispatch(reason: Reason)

  // How one call fares: it works, it never reaches the remote, or its answer is lost.
  datatype Fault = Healthy | RequestLost(error: Error) | ResponseLost(error: Error)

  // What happens around one call: the tags other actors try to create just before it, and its fault.
  datatype Turn = Turn(others: map<Ref, Sha>, fault: Fault)

  type Schedule = nat -> Turn

  // A workflow run; the remote resolves the tag it runs on when it accepts the dispatch.
  datatype WorkflowRun = WorkflowRun(ref: Ref, expectedSha: Sha, triggeringPr: int, headSha: Sha)

  // A call that was made, and the answer that the dispatcher got.
  datatype Call =
    | PolicyRead
    | TagRead(ref: Ref, found: Result<Option<Sha>, Error>)
    | TagCreate(ref: Ref, sha: Sha, created: Result<(), Error>)
    | WorkflowStart(ref: Ref, revision: Sha, pr: int, started: Result<(), Error>)

  // The remote, and the calls made so far; the next call has number clock.
  datatype World = World(tags: map<Ref, Sha>, runs: seq<WorkflowRun>, calls: seq<Call>) {
    const clock: nat := |calls|
  }

  datatype Step<+T> = Step(world: World, result: Result<T, Error>)

  // Other actors create absent tags only; an existing tag is never moved or deleted.
  function Seen(w: World, env: Schedule): map<Ref, Sha> { env(w.clock).others + w.tags }

  function Interfere(w: World, env: Schedule, call: Call): World { World(Seen(w, env), w.runs, w.calls + [call]) }

  function ReadMergeMethods(w: World, env: Schedule, methods: (bool, bool, bool)): Step<(bool, bool, bool)> {
    var fault := env(w.clock).fault;
    Step(Interfere(w, env, PolicyRead), if fault.Healthy? then Success(methods) else Failure(fault.error))
  }

  // HTTP 404 means that the tag is absent, whatever caused the status.
  function ReadRef(w: World, env: Schedule, ref: Ref): Step<Option<Sha>> {
    var seen, fault := Seen(w, env), env(w.clock).fault;
    var found: Result<Option<Sha>, Error> :=
      if !fault.Healthy? then (if fault.error == Api(NOT_FOUND) then Success(None) else Failure(fault.error))
      else if ref !in seen then Success(None)
      else if !FullSha(seen[ref]) then Failure(Dispatch(InvalidResponse))
      else Success(Some(seen[ref]));
    Step(Interfere(w, env, TagRead(ref, found)), found)
  }

  function CreateRef(w: World, env: Schedule, ref: Ref, sha: Sha): Step<()> {
    var seen, fault := Seen(w, env), env(w.clock).fault;
    var created: Result<(), Error> :=
      if !fault.Healthy? then Failure(fault.error)
      else if ref in seen then Failure(Api(ALREADY_EXISTS))
      else Success(());
    var answered := Interfere(w, env, TagCreate(ref, sha, created));
    Step(if fault.RequestLost? || ref in seen then answered else answered.(tags := seen[ref := sha]), created)
  }

  function DispatchWorkflow(w: World, env: Schedule, ref: Ref, revision: Sha, pr: int): Step<()> {
    var seen, fault := Seen(w, env), env(w.clock).fault;
    var started: Result<(), Error> :=
      if !fault.Healthy? then Failure(fault.error)
      else if ref in seen then Success(())
      else Failure(Api(ALREADY_EXISTS));
    var answered := Interfere(w, env, WorkflowStart(ref, revision, pr, started));
    Step(if fault.RequestLost? || ref !in seen then answered
         else answered.(runs := w.runs + [WorkflowRun(ref, revision, pr, seen[ref])]), started)
  }

  /** What the dispatcher makes of a read: the tag's own commit, an absent tag, or an error. */
  lemma ReadAnswers(w: World, env: Schedule, ref: Ref, sha: Sha)
    ensures var found, seen, fault := ReadRef(w, env, ref).result, Seen(w, env), env(w.clock).fault;
            && (found == Success(Some(sha)) <==> fault.Healthy? && ref in seen && seen[ref] == sha && FullSha(sha))
            && (found == Success(None) <==> if fault.Healthy? then ref !in seen else fault.error == Api(404))
            && (found.Failure? ==>
                  found.error == if fault.Healthy? then Dispatch(InvalidResponse) else fault.error)
  {
  }

  lemma FullShaBounds(s: Sha, i: nat, c: char)
    requires FullSha(s) && i < |s|
    ensures |s| == 40
    ensures c in {'0', '9', 'a', 'f'} ==> FullSha(s[i := c])
    ensures c in {'/', ':', '`', 'g', 'A'} ==> !FullSha(s[i := c])
  {
    var t := s[i := c];
    assert t[i] == c && c in t;
    assert forall x :: x in t ==> x == c || x in s;
  }

  // The tags as other actors alone would leave them over the calls numbered lo .. hi.
  ghost function OthersOnly(tags: map<Ref, Sha>, env: Schedule, lo: nat, hi: nat): map<Ref, Sha>
    requires lo <= hi
    decreases hi - lo
  {
    if lo == hi then tags else OthersOnly(env(lo).others + tags, env, lo + 1, hi)
  }

  // later holds every tag of earlier at the same target.
  ghost predicate Extends(earlier: map<Ref, Sha>, later: map<Ref, Sha>) {
    forall ref :: ref in earlier ==> ref in later && later[ref] == earlier[ref]
  }

  // Both maps say the same about ref.
  ghost predicate SameAt(a: map<Ref, Sha>, b: map<Ref, Sha>, ref: Ref) {
    (ref in a <==> ref in b) && (ref in a ==> a[ref] == b[ref])
  }

  lemma RefsAreInjective(a: Sha, b: Sha)
    requires DispatchRef(a) == DispatchRef(b)
    ensures a == b
  {
    assert DispatchRef(a)[|REF_PREFIX|..] == a;
    assert DispatchRef(b)[|REF_PREFIX|..] == b;
  }

  lemma {:induction false} OthersOnlyKeepsAgreement(
      a: map<Ref, Sha>, b: map<Ref, Sha>, env: Schedule, lo: nat, hi: nat, ref: Ref)
    requires lo <= hi && SameAt(a, b, ref)
    ensures SameAt(OthersOnly(a, env, lo, hi), OthersOnly(b, env, lo, hi), ref)
    decreases hi - lo
  {
    if lo < hi {
      OthersOnlyKeepsAgreement(env(lo).others + a, env(lo).others + b, env, lo + 1, hi, ref);
    }
  }

  lemma {:induction false} OthersOnlySplits(tags: map<Ref, Sha>, env: Schedule, lo: nat, mid: nat, hi: nat)
    requires lo <= mid <= hi
    ensures OthersOnly(tags, env, lo, hi) == OthersOnly(OthersOnly(tags, env, lo, mid), env, mid, hi)
    decreases mid - lo
  {
    if lo < mid {
      OthersOnlySplits(env(lo).others + tags, env, lo + 1, mid, hi);
    }
  }
}

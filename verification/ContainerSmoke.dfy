/** The container smoke proof: start, probe until the deadline, and always remove the container. */
module ContainerSmoke {
  import opened Common

  datatype Build = Build(imageDigest: Option<string>, imageDigestReference: Option<string>, releaseIdentityStatus: Option<string>)

  // What an endpoint answers: no status when it cannot be reached, no payload when it is no JSON; or an
  // interrupt, which the probe loop does not take for a failed attempt.
  datatype Response = Answer(status: Option<int>, payload: Option<Option<Build>>) | Interrupt

  datatype ProbeResult = ProbeResult(path: string, statusCode: int, build: Option<Build>)

  datatype Expectation = Expectation(path: string, accepted: set<int>)

  const PROBES: seq<Expectation> := [
    Expectation("/health", {200}), Expectation("/health/live", {200}),
    Expectation("/health/ready", {200, 503}), Expectation("/version", {200})]

  const VERSION: nat := 3

  datatype Config = Config(
    timeout: real, interval: real, imageDigest: Option<string>, imageDigestReference: Option<string>)

  datatype Command = Start | Remove | Logs

  // Interrupted stands for every exception that the probe loop does not catch, whichever call raised it.
  datatype SmokeError = StartFailed | NotReachable | Interrupted

  /***** One attempt *****/

  function ProbeEndpoint(expected: Expectation, answer: Response): Option<ProbeResult>
    requires answer.Answer?
  {
    if answer.status.None? || answer.status.value !in expected.accepted || answer.payload.None? then None
    else Some(ProbeResult(expected.path, answer.status.value, answer.payload.value))
  }

  // Probe k of the answers passed with this result.
  ghost predicate Passed(answers: nat -> Response, k: nat, result: ProbeResult)
    requires k < |PROBES|
  {
    && answers(k).Answer?
    && answers(k).status == Some(result.statusCode) && result.statusCode in PROBES[k].accepted
    && answers(k).payload == Some(result.build) && result.path == PROBES[k].path
  }

  ghost predicate AllPassed(answers: nat -> Response, results: seq<ProbeResult>) {
    |results| == |PROBES| && forall k :: 0 <= k < |PROBES| ==> Passed(answers, k, results[k])
  }

  // The version endpoint names the deployed image whenever one is configured.
  ghost predicate IdentityMatches(config: Config, build: Option<Build>) {
    config.imageDigest.Some? || config.imageDigestReference.Some? ==>
      && build.Some? && build.value.imageDigest == config.imageDigest
      && build.value.imageDigestReference == config.imageDigestReference
      && build.value.releaseIdentityStatus == Some("digest_bound")
  }

  // The check of the version probe.
  function ValidatesVersion(config: Config, build: Option<Build>): (valid: bool)
    ensures valid <==> IdentityMatches(config, build)
  {
    || (config.imageDigest.None? && config.imageDigestReference.None?)
    || build == Some(Build(config.imageDigest, config.imageDigestReference, Some("digest_bound")))
  }

  // One attempt passes with these results.
  ghost predicate Passes(config: Config, answers: nat -> Response, results: seq<ProbeResult>) {
    AllPassed(answers, results) && IdentityMatches(config, results[VERSION].build)
  }

  // Probe k is interrupted, after the probes before it passed.
  ghost predicate InterruptedAt(answers: nat -> Response, k: nat, before: seq<ProbeResult>) {
    k < |PROBES| && answers(k) == Interrupt && |before| == k && forall i :: 0 <= i < k ==> Passed(answers, i, before[i])
  }

  ghost predicate Interrupts(answers: nat -> Response) { exists k: nat, before :: InterruptedAt(answers, k, before) }

  ghost predicate Fails(config: Config, answers: nat -> Response) {
    !Interrupts(answers) && forall results :: !Passes(config, answers, results)
  }

  // Where an attempt is interrupted, no probe before that failed.
  lemma InterruptedAfter(answers: nat -> Response, j: nat, before: seq<ProbeResult>, k: nat)
    requires InterruptedAt(answers, j, before) && k < j
    ensures Passed(answers, k, before[k])
  {
  }

  lemma PassedEach(answers: nat -> Response, results: seq<ProbeResult>, k: nat)
    requires AllPassed(answers, results) && k < |PROBES|
    ensures Passed(answers, k, results[k])
  {
  }

  // An attempt that stops at probe k without passing it has failed, unless it was interrupted by then.
  lemma StopsAt(config: Config, answers: nat -> Response, k: nat)
    requires k < |PROBES| && forall result :: !Passed(answers, k, result)
    requires forall i :: 0 <= i <= k ==> answers(i) != Interrupt
    ensures Fails(config, answers)
  {
    forall results ensures !Passes(config, answers, results) {
      if AllPassed(answers, results) { PassedEach(answers, results, k); }
    }
    forall j: nat, before ensures !InterruptedAt(answers, j, before) {
      if k < j && InterruptedAt(answers, j, before) { InterruptedAfter(answers, j, before, k); }
    }
  }

  datatype Attempt = Good(results: seq<ProbeResult>) | Bad | Broken

  method ProbeAll(config: Config, answers: nat -> Response) returns (r: Attempt)
    ensures r.Good? ==> Passes(config, answers, r.results)
    ensures r.Bad? <==> Fails(config, answers)
    ensures r.Broken? <==> Interrupts(answers)
  {
    var collected: seq<ProbeResult> := [];
    for k := 0 to |PROBES|
      invariant |collected| == k && forall i :: 0 <= i < k ==> Passed(answers, i, collected[i])
    {
      if answers(k).Interrupt? {
        assert InterruptedAt(answers, k, collected);
        return Broken;
      }
      var result := ProbeEndpoint(PROBES[k], answers(k));
      if result.None? {
        assert forall i :: 0 <= i < k ==> Passed(answers, i, collected[i]) && answers(i).Answer?;
        StopsAt(config, answers, k);
        return Bad;
      }
      assert Passed(answers, k, result.value);
      collected := collected + [result.value];
    }
    NeverInterrupted(answers, collected);
    if !ValidatesVersion(config, collected[VERSION].build) {
      forall all: seq<ProbeResult> | AllPassed(answers, all) ensures all[VERSION].build == collected[VERSION].build {
        assert Passed(answers, VERSION, all[VERSION]);
      }
      return Bad;
    }
    assert Passes(config, answers, collected);
    return Good(collected);
  }

  lemma NeverInterrupted(answers: nat -> Response, results: seq<ProbeResult>)
    requires AllPassed(answers, results)
    ensures !Interrupts(answers)
  {
    forall k: nat, before ensures !InterruptedAt(answers, k, before) {
      if k < |PROBES| { PassedEach(answers, results, k); }
    }
  }

  /***** The host *****/

  // How one call on the host goes: interrupted or not, how long it takes, whether Docker carries it
  // out, and whether a start that Docker does not carry out leaves a container behind.
  datatype Turn = Turn(interrupted: bool, elapsed: real, works: bool, leaves: bool)

  function Longer(a: real, b: real): (longer: real)
    ensures a <= longer && b <= longer && longer in {a, b}
  {
    if a > b then a else b
  }

  /** The host: a clock that never goes back and advances by some least amount with every sleep, Docker,
      and what the endpoints answer on each attempt.  Any call may be interrupted. */
  class Host {
    const answers: nat -> nat -> Response
    const turns: nat -> Turn
    const leastSleep: real
    var now: real
    var calls: nat
    var log: seq<Command>
    var running: bool

    ghost predicate Valid() { leastSleep > 0.0 && forall n :: turns(n).elapsed >= 0.0 }

    constructor (answers: nat -> nat -> Response, turns: nat -> Turn, leastSleep: real, running: bool)
      requires leastSleep > 0.0 && forall n :: turns(n).elapsed >= 0.0
      ensures Valid() && log == [] && calls == 0 && this.running == running
    {
      this.answers, this.turns, this.leastSleep := answers, turns, leastSleep;
      this.running := running;
      now, calls, log := 0.0, 0, [];
    }

    method Monotonic() returns (interrupted: bool, t: real)
      requires Valid()
      modifies `now, `calls
      ensures calls == old(calls) + 1 && interrupted == turns(old(calls)).interrupted
      ensures t == now == old(now) + turns(old(calls)).elapsed
    {
      interrupted := turns(calls).interrupted;
      now := now + turns(calls).elapsed;
      calls := calls + 1;
      t := now;
    }

    // A negative interval is an exception.
    method Sleep(interval: real) returns (interrupted: bool)
      requires Valid()
      modifies `now, `calls
      ensures calls == old(calls) + 1
      ensures interrupted == (interval < 0.0 || turns(old(calls)).interrupted)
      ensures now == old(now) + turns(old(calls)).elapsed + if interrupted then 0.0 else Longer(interval, leastSleep)
    {
      interrupted := interval < 0.0 || turns(calls).interrupted;
      now := now + turns(calls).elapsed + if interrupted then 0.0 else Longer(interval, leastSleep);
      calls := calls + 1;
    }

    method StartContainer() returns (interrupted: bool, started: bool)
      modifies `log, `running, `calls
      ensures calls == old(calls) + 1 && log == old(log) + [Start]
      ensures interrupted == turns(old(calls)).interrupted && started == turns(old(calls)).works
      ensures running == (old(running) || turns(old(calls)).works || turns(old(calls)).leaves)
    {
      interrupted, started := turns(calls).interrupted, turns(calls).works;
      running := running || started || turns(calls).leaves;
      log := log + [Start];
      calls := calls + 1;
    }

    // A removal that Docker cannot carry out is no exception.
    method RemoveContainer() returns (interrupted: bool)
      modifies `log, `running, `calls
      ensures calls == old(calls) + 1 && log == old(log) + [Remove]
      ensures interrupted == turns(old(calls)).interrupted
      ensures running == (old(running) && !turns(old(calls)).works)
    {
      interrupted := turns(calls).interrupted;
      running := running && !turns(calls).works;
      log := log + [Remove];
      calls := calls + 1;
    }

    method ReadLogs() returns (interrupted: bool)
      modifies `log, `calls
      ensures calls == old(calls) + 1 && log == old(log) + [Logs]
      ensures interrupted == turns(old(calls)).interrupted
    {
      interrupted := turns(calls).interrupted;
      log := log + [Logs];
      calls := calls + 1;
    }
  }

  /***** Attempts *****/

  // Each sleep advances the clock by at least this much.
  ghost function Pace(config: Config, leastSleep: real): (pace: real)
    requires leastSleep > 0.0
    ensures pace > 0.0
  {
    if config.interval > leastSleep then config.interval else leastSleep
  }

  // The most attempts that fit: one at the start and one after each full sleep.
  ghost function MaxAttempts(config: Config, leastSleep: real): nat
    requires leastSleep > 0.0
  {
    if config.timeout < 0.0 then 0
    else
      QuotientBound(0.0, Pace(config, leastSleep), config.timeout);
      (config.timeout / Pace(config, leastSleep)).Floor + 1
  }

  // The least time that k sleeps take.
  ghost function Slept(k: nat, pace: real): real { (k as real) * pace }

  lemma OneMoreSleep(k: nat, pace: real)
    ensures Slept(k + 1, pace) == Slept(k, pace) + pace
  {
  }

  lemma AttemptFits(k: nat, config: Config, leastSleep: real)
    requires leastSleep > 0.0 && Slept(k, Pace(config, leastSleep)) <= config.timeout
    ensures k + 1 <= MaxAttempts(config, leastSleep)
  {
    var pace := Pace(config, leastSleep);
    assert pace > 0.0 && (k as real) * pace <= config.timeout;
    QuotientBound(k as real, pace, config.timeout);
  }

  lemma QuotientBound(k: real, pace: real, timeout: real)
    requires pace > 0.0 && k * pace <= timeout
    ensures k <= timeout / pace
  {
  }

  /** With a positive interval the bound is the one that the interval alone gives. */
  lemma IntervalBounds(config: Config, leastSleep: real)
    requires leastSleep > 0.0 && config.interval > 0.0 && config.timeout >= 0.0
    ensures MaxAttempts(config, leastSleep) <= (config.timeout / config.interval).Floor + 1
  {
    QuotientBound(config.timeout / Pace(config, leastSleep), config.interval, config.timeout) by {
    }
  }

  // How the probing ends.
  datatype Probing = Reached(results: seq<ProbeResult>) | PastDeadline | Stopped

  // Every attempt before attempt n failed.
  ghost predicate FailedBefore(config: Config, answers: nat -> nat -> Response, n: int) {
    forall a: nat :: a < n ==> Fails(config, answers(a))
  }

  // What happens around the probing: the answers of the endpoints, the turns of the host, the least
  // advance of its clock in a sleep, and its clock and call number when the probing begins.
  datatype Scene = Scene(
    answers: nat -> nat -> Response, turns: nat -> Turn, leastSleep: real, now: real, calls: nat)

  ghost function SceneOf(host: Host): Scene
    reads host
  {
    Scene(host.answers, host.turns, host.leastSleep, host.now, host.calls)
  }

  // The clock as it is read before attempt n, after n sleeps, when nothing is interrupted.
  ghost function ReadAt(s: Scene, config: Config, n: nat): real {
    if n == 0 then s.now + s.turns(s.calls).elapsed + s.turns(s.calls + 1).elapsed
    else
      ReadAt(s, config, n - 1) + s.turns(s.calls + 2 * n).elapsed + Longer(config.interval, s.leastSleep)
      + s.turns(s.calls + 2 * n + 1).elapsed
  }

  ghost predicate InTime(s: Scene, config: Config, n: nat) {
    ReadAt(s, config, n) <= s.now + s.turns(s.calls).elapsed + config.timeout
  }

  // The first n of the calls are not interrupted.
  ghost predicate Undisturbed(s: Scene, n: nat) {
    forall c: nat :: s.calls <= c < s.calls + n ==> !s.turns(c).interrupted
  }

  // The probing comes to read the clock before attempt n: the attempts before it were made in time and
  // failed, and no sleep or clock was interrupted.
  ghost predicate ComesTo(s: Scene, config: Config, n: nat) {
    && Undisturbed(s, 2 + 2 * n) && (n > 0 ==> config.interval >= 0.0)
    && FailedBefore(config, s.answers, n) && forall i: nat :: i < n ==> InTime(s, config, i)
  }

  // Attempt n is made.
  ghost predicate Tries(s: Scene, config: Config, n: nat) { ComesTo(s, config, n) && InTime(s, config, n) }

  // The probing is stopped with n attempts made: before the first one, within the last one, or in the
  // sleep or the clock after it.
  ghost predicate StopsWith(s: Scene, config: Config, n: nat) {
    if n == 0 then !Undisturbed(s, 2)
    else
      && Tries(s, config, n - 1)
      && (Interrupts(s.answers(n - 1)) ||
          (Fails(config, s.answers(n - 1)) && (config.interval < 0.0 || !Undisturbed(s, 2 + 2 * n))))
  }

  // What each way of ending means.
  ghost predicate Ends(s: Scene, config: Config, r: Probing, n: nat) {
    match r
    case Reached(results) => n > 0 && Tries(s, config, n - 1) && Passes(config, s.answers(n - 1), results)
    case PastDeadline => ComesTo(s, config, n) && !InTime(s, config, n)
    case Stopped => StopsWith(s, config, n)
  }

  // One more failed attempt, and a sleep and a clock that are not interrupted.
  lemma ComesToNext(s: Scene, config: Config, n: nat)
    requires Tries(s, config, n) && Fails(config, s.answers(n)) && config.interval >= 0.0
    requires !s.turns(s.calls + 2 + 2 * n).interrupted && !s.turns(s.calls + 3 + 2 * n).interrupted
    ensures ComesTo(s, config, n + 1)
  {
  }

  lemma ComesToFirst(s: Scene, config: Config)
    ensures Undisturbed(s, 2) ==> ComesTo(s, config, 0)
    ensures s.turns(s.calls).interrupted || s.turns(s.calls + 1).interrupted ==> Ends(s, config, Stopped, 0)
    ensures !s.turns(s.calls).interrupted && !s.turns(s.calls + 1).interrupted ==> Undisturbed(s, 2)
  {
  }

  lemma StopsInAttempt(s: Scene, config: Config, n: nat)
    requires Tries(s, config, n)
    requires
      || Interrupts(s.answers(n))
      || (Fails(config, s.answers(n)) &&
          (config.interval < 0.0 || s.turns(s.calls + 2 + 2 * n).interrupted || s.turns(s.calls + 3 + 2 * n).interrupted))
    ensures Ends(s, config, Stopped, n + 1)
  {
  }

  // What all turns of a scene keep to.
  ghost predicate Plausible(s: Scene) { s.leastSleep > 0.0 && forall n :: s.turns(n).elapsed >= 0.0 }

  lemma {:induction false} SleepsTakeTime(s: Scene, config: Config, n: nat)
    requires Plausible(s)
    ensures s.now + s.turns(s.calls).elapsed + Slept(n, Pace(config, s.leastSleep)) <= ReadAt(s, config, n)
  {
    if n > 0 {
      SleepsTakeTime(s, config, n - 1);
      OneMoreSleep(n - 1, Pace(config, s.leastSleep));
    }
  }

  /** An attempt that is made is within the bound. */
  lemma TriesFit(s: Scene, config: Config, n: nat)
    requires Plausible(s) && Tries(s, config, n)
    ensures n + 1 <= MaxAttempts(config, s.leastSleep)
  {
    SleepsTakeTime(s, config, n);
    AttemptFits(n, config, s.leastSleep);
  }

  // The call number after probing that ended with n attempts, and the clock when it ended at the deadline.
  ghost predicate LeavesHost(s: Scene, config: Config, r: Probing, n: nat, now: real, calls: nat) {
    match r
    case Reached(_) => calls == s.calls + 2 * n
    case PastDeadline => calls == s.calls + 2 + 2 * n && now == ReadAt(s, config, n)
    case Stopped => calls <= s.calls + 2 + 2 * n
  }

  // One turn of the loop: it ends the probing, or reads the clock before the next attempt.
  method MakeAttempt(config: Config, host: Host, ghost s: Scene, n: nat) returns (ended: Option<Probing>, t: real)
    requires host.Valid() && host.answers == s.answers && host.turns == s.turns && host.leastSleep == s.leastSleep
    requires Tries(s, config, n) && host.now == ReadAt(s, config, n) && host.calls == s.calls + 2 + 2 * n
    modifies host`now, host`calls
    ensures s.calls < host.calls
    ensures ended.Some? ==>
              !ended.value.PastDeadline? && Ends(s, config, ended.value, n + 1)
              && LeavesHost(s, config, ended.value, n + 1, host.now, host.calls)
    ensures ended.None? ==>
              && ComesTo(s, config, n + 1)
              && t == host.now == ReadAt(s, config, n + 1) && host.calls == s.calls + 2 + 2 * (n + 1)
  {
    t := host.now;
    var attempt := ProbeAll(config, host.answers(n));
    if attempt.Good? { return Some(Reached(attempt.results)), t; }
    if attempt.Broken? {
      StopsInAttempt(s, config, n);
      return Some(Stopped), t;
    }
    var interrupted := host.Sleep(config.interval);
    if interrupted {
      StopsInAttempt(s, config, n);
      return Some(Stopped), t;
    }
    interrupted, t := host.Monotonic();
    if interrupted {
      StopsInAttempt(s, config, n);
      return Some(Stopped), t;
    }
    ComesToNext(s, config, n);
    ended := None;
  }

  // Probes until an attempt passes, the clock is past the deadline, or something interrupts it.
  method ProbeUntilDeadline(config: Config, host: Host) returns (r: Probing, attempts: nat)
    requires host.Valid()
    modifies host`now, host`calls
    ensures Ends(old(SceneOf(host)), config, r, attempts)
    ensures LeavesHost(old(SceneOf(host)), config, r, attempts, host.now, host.calls)
    ensures attempts <= MaxAttempts(config, host.leastSleep)
    ensures old(host.calls) < host.calls
  {
    attempts := 0;
    ghost var s := SceneOf(host);
    ComesToFirst(s, config);
    var interrupted, base := host.Monotonic();
    if interrupted { return Stopped, attempts; }
    var deadline := base + config.timeout;
    var t;
    interrupted, t := host.Monotonic();
    if interrupted { return Stopped, attempts; }
    while t <= deadline
      invariant host.Valid() && t == host.now == ReadAt(s, config, attempts) && host.calls == s.calls + 2 + 2 * attempts
      invariant attempts <= MaxAttempts(config, host.leastSleep)
      invariant ComesTo(s, config, attempts)
      decreases MaxAttempts(config, host.leastSleep) - attempts
    {
      TriesFit(s, config, attempts);
      var ended;
      ended, t := MakeAttempt(config, host, s, attempts);
      attempts := attempts + 1;
      if ended.Some? { return ended.value, attempts; }
    }
    r := PastDeadline;
  }

  // An ending after more than n attempts means that attempt n was made; one after n means that it was not.
  lemma LaterEndingTries(s: Scene, config: Config, r: Probing, k: nat, n: nat)
    requires Ends(s, config, r, k) && n < k
    ensures Tries(s, config, n)
  {
  }

  lemma EndingTriesNoMore(s: Scene, config: Config, r: Probing, n: nat)
    requires Ends(s, config, r, n)
    ensures !Tries(s, config, n)
  {
  }

  lemma SameResults(config: Config, answers: nat -> Response, a: seq<ProbeResult>, b: seq<ProbeResult>)
    requires AllPassed(answers, a) && AllPassed(answers, b)
    ensures a == b
  {
    forall k: nat | k < |PROBES| ensures a[k] == b[k] {
      PassedEach(answers, a, k);
      PassedEach(answers, b, k);
    }
  }

  /** The probing can end in one way only: what happens around it decides which, and after how many attempts. */
  lemma OneEnding(s: Scene, config: Config, a: Probing, n: nat, b: Probing, m: nat)
    requires Ends(s, config, a, n) && Ends(s, config, b, m)
    ensures n == m && a == b
  {
    EndingTriesNoMore(s, config, a, n);
    EndingTriesNoMore(s, config, b, m);
    if n < m { LaterEndingTries(s, config, b, m, n); }
    if m < n { LaterEndingTries(s, config, a, n, m); }
    SameKind(s, config, a, b, n);
    if a.Reached? { SameResults(config, s.answers(n - 1), a.results, b.results); }
  }

  lemma SameKind(s: Scene, config: Config, a: Probing, b: Probing, n: nat)
    requires Ends(s, config, a, n) && Ends(s, config, b, n)
    ensures (a.Reached? <==> b.Reached?) && (a.Stopped? <==> b.Stopped?)
  {
    if a.Reached? { NeverInterrupted(s.answers(n - 1), a.results); }
    if b.Reached? { NeverInterrupted(s.answers(n - 1), b.results); }
  }

  /***** The whole proof *****/

  // The commands of the body: it can stop after any of them.
  const BODY := [Remove, Start, Logs]

  // What the probing meets when the body has made its first two calls.
  ghost function Started(s: Scene): Scene { s.(calls := s.calls + 2) }

  ghost predicate StartWorks(s: Scene) { Undisturbed(s, 2) && s.turns(s.calls + 1).works }

  // What the body comes to when the probing ended with p after n attempts.
  ghost function Concluded(s: Scene, p: Probing, n: nat): Result<seq<ProbeResult>, SmokeError> {
    match p
    case Reached(results) => Success(results)
    case Stopped => Failure(Interrupted)
    case PastDeadline => Failure(if s.turns(Started(s).calls + 2 + 2 * n).interrupted then Interrupted else NotReachable)
  }

  // What the body comes to.
  ghost predicate BodyEnds(s: Scene, config: Config, r: Result<seq<ProbeResult>, SmokeError>, n: nat) {
    if !Undisturbed(s, 2) then n == 0 && r == Failure(Interrupted)
    else if !StartWorks(s) then n == 0 && r == Failure(StartFailed)
    else exists p: Probing :: Ends(Started(s), config, p, n) && r == Concluded(s, p, n)
  }

  // The body of the proof: everything that the final removal is guaranteed to follow.
  method StartAndProbe(config: Config, host: Host) returns (r: Result<seq<ProbeResult>, SmokeError>, attempts: nat)
    requires host.Valid()
    modifies host
    ensures exists n :: 1 <= n <= |BODY| && host.log == old(host.log) + BODY[..n]
    ensures BodyEnds(old(SceneOf(host)), config, r, attempts)
    ensures attempts <= MaxAttempts(config, host.leastSleep)
  {
    attempts := 0;
    ghost var s, log := SceneOf(host), host.log;
    var interrupted := host.RemoveContainer();
    assert BODY[..1] == [Remove] && BODY[..2] == [Remove] + [Start] && BODY[..3] == [Remove] + [Start] + [Logs];
    if interrupted { return Failure(Interrupted), attempts; }
    var started;
    interrupted, started := host.StartContainer();
    assert host.log == log + ([Remove] + [Start]);
    if interrupted { return Failure(Interrupted), attempts; }
    if !started { return Failure(StartFailed), attempts; }
    var probing;
    assert SceneOf(host) == Started(s);
    probing, attempts := ProbeUntilDeadline(config, host);
    if probing.Reached? { return Success(probing.results), attempts; }
    if probing.Stopped? { return Failure(Interrupted), attempts; }
    interrupted := host.ReadLogs();
    assert host.log == log + ([Remove] + [Start] + [Logs]);
    r := Failure(if interrupted then Interrupted else NotReachable);
    assert r == Concluded(s, probing, attempts);
  }

  /** Whatever the body does and wherever it is interrupted, the last command is a removal, so the
      container is gone on every exit whose final removal Docker carries out.  An exit is the body's own
      unless that removal is interrupted, and the attempts are bounded by the timeout. */
  method RunContainerSmoke(config: Config, host: Host)
      returns (r: Result<seq<ProbeResult>, SmokeError>, attempts: nat)
    requires host.Valid()
    modifies host
    ensures exists n :: 1 <= n <= |BODY| && host.log == old(host.log) + BODY[..n] + [Remove]
    ensures host.calls > 0 && (host.turns(host.calls - 1).works ==> !host.running)
    ensures attempts <= MaxAttempts(config, host.leastSleep)
    ensures if host.turns(host.calls - 1).interrupted then r == Failure(Interrupted)
            else BodyEnds(old(SceneOf(host)), config, r, attempts)
  {
    r, attempts := StartAndProbe(config, host);
    var interrupted := host.RemoveContainer();
    if interrupted { r := Failure(Interrupted); }
  }

  // The container starts, and the probing comes to attempt k in time, which passes with these results.
  ghost predicate Returns(s: Scene, config: Config, k: nat, results: seq<ProbeResult>) {
    StartWorks(s) && Tries(Started(s), config, k) && Passes(config, s.answers(k), results)
  }

  /** A body returns exactly when some attempt does that, and then with the results of that attempt; it is
      the first that passes, and every attempt before it was made in time and failed. */
  lemma ReturnsExactly(s: Scene, config: Config, r: Result<seq<ProbeResult>, SmokeError>, n: nat)
    requires BodyEnds(s, config, r, n)
    ensures forall k: nat, results :: Returns(s, config, k, results) ==> r == Success(results) && n == k + 1
    ensures r.Success? ==> n > 0 && Returns(s, config, n - 1, r.value) && FailedBefore(config, s.answers, n - 1)
  {
    forall k: nat, results | Returns(s, config, k, results) ensures r == Success(results) && n == k + 1 {
      ReturnedIs(s, config, r, n, k, results);
    }
  }

  lemma ReturnedIs(s: Scene, config: Config, r: Result<seq<ProbeResult>, SmokeError>, n: nat, k: nat,
                   results: seq<ProbeResult>)
    requires BodyEnds(s, config, r, n) && Returns(s, config, k, results)
    ensures r == Success(results) && n == k + 1
  {
    var p: Probing :| Ends(Started(s), config, p, n) && r == Concluded(s, p, n);
    OneEnding(Started(s), config, p, n, Reached(results), k + 1);
  }

  /** A container that is reachable from some attempt on, on a host that interrupts nothing, is returned
      when that attempt starts by the deadline, and reported as unreachable only past the deadline. */
  lemma HealthyIsReturned(s: Scene, config: Config, r: Result<seq<ProbeResult>, SmokeError>, n: nat, k: nat,
                          results: seq<ProbeResult>)
    requires BodyEnds(s, config, r, n) && StartWorks(s) && Plausible(s)
    requires config.interval >= 0.0 && forall c :: !s.turns(c).interrupted
    requires Passes(config, s.answers(k), results) && FailedBefore(config, s.answers, k)
    ensures if InTime(Started(s), config, k) then r == Success(results) && n == k + 1 else r == Failure(NotReachable) && n <= k
  {
    if InTime(Started(s), config, k) {
      forall i: nat | i < k ensures InTime(Started(s), config, i) { EarlierInTime(Started(s), config, i, k); }
      ReturnedIs(s, config, r, n, k, results);
    } else {
      var p: Probing :| Ends(Started(s), config, p, n) && r == Concluded(s, p, n);
      if k < n { LaterEndingTries(Started(s), config, p, n, k); }
      assert n <= k;
      assert n > 0 ==> Fails(config, s.answers(n - 1));
    }
  }

  lemma {:induction false} EarlierInTime(s: Scene, config: Config, i: nat, k: nat)
    requires Plausible(s) && i <= k && InTime(s, config, k)
    ensures InTime(s, config, i)
    decreases k - i
  {
    if i < k {
      EarlierInTime(s, config, i + 1, k);
      assert s.turns(s.calls + 2 * (i + 1)).elapsed >= 0.0 && s.turns(s.calls + 2 * (i + 1) + 1).elapsed >= 0.0;
      assert ReadAt(s, config, i) <= ReadAt(s, config, i + 1);
    }
  }
}

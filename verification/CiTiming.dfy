/** Job durations and the workflow window, in microseconds, and the rounding to whole seconds. */
module CiTiming {
  import opened Common

  const SECOND: int := 1_000_000

  // Python's round of a number of seconds: to the nearest, a tie to the even one.
  function RoundSeconds(micros: int): int {
    var whole, part := micros / SECOND, micros % SECOND;
    if 2 * part < SECOND || (2 * part == SECOND && whole % 2 == 0) then whole else whole + 1
  }

  lemma RoundIsNearest(micros: int, n: int)
    ensures -SECOND <= 2 * (RoundSeconds(micros) * SECOND - micros) <= SECOND
    ensures 2 * (RoundSeconds(micros) * SECOND - micros) in {-SECOND, SECOND} ==> RoundSeconds(micros) % 2 == 0
    ensures -SECOND < 2 * (n * SECOND - micros) < SECOND ==> n == RoundSeconds(micros)
  {
  }

  lemma RoundIsMonotone(a: int, b: int)
    requires a <= b
    ensures RoundSeconds(a) <= RoundSeconds(b)
  {
  }

  function Max(a: int, b: int): int { if a < b then b else a }

  // Parsed times of a job; None when the text is missing.
  datatype JobTimes = JobTimes(started: Option<int>, completed: Option<int>)

  function DurationSeconds(job: JobTimes): int {
    if job.started.None? || job.completed.None? then 0
    else Max(0, RoundSeconds(job.completed.value - job.started.value))
  }

  function Values(times: seq<Option<int>>): (values: seq<int>)
    ensures forall v :: v in values <==> Some(v) in times
  {
    if times == [] then []
    else (if times[0].Some? then [times[0].value] else []) + Values(times[1..])
  }

  function Started(jobs: seq<JobTimes>): seq<int> { Values(MapSeq(jobs, (j: JobTimes) => j.started)) }

  function Completed(jobs: seq<JobTimes>): seq<int> { Values(MapSeq(jobs, (j: JobTimes) => j.completed)) }

  method Earliest(times: seq<int>) returns (least: int)
    requires times != []
    ensures least in times && forall t :: t in times ==> least <= t
  {
    least := times[0];
    for i := 1 to |times|
      invariant least in times && forall j :: 0 <= j < i ==> least <= times[j]
    {
      if times[i] < least { least := times[i]; }
    }
  }

  method Latest(times: seq<int>) returns (greatest: int)
    requires times != []
    ensures greatest in times && forall t :: t in times ==> t <= greatest
  {
    greatest := times[0];
    for i := 1 to |times|
      invariant greatest in times && forall j :: 0 <= j < i ==> times[j] <= greatest
    {
      if times[i] > greatest { greatest := times[i]; }
    }
  }

  // Reported timestamps are cut to whole seconds.
  function Truncated(micros: int): int { micros / SECOND }

  datatype Window = Window(started: Option<int>, completed: Option<int>, wallClock: int)

  // The window runs from the earliest start to the latest completion, when there are both.
  ghost predicate Spans(w: Window, jobs: seq<JobTimes>) {
    if Started(jobs) == [] || Completed(jobs) == [] then w == Window(None, None, 0)
    else exists s, c :: IsEarliest(s, Started(jobs)) && IsLatest(c, Completed(jobs)) && w == WindowOf(s, c)
  }

  ghost predicate IsEarliest(s: int, times: seq<int>) { s in times && forall t :: t in times ==> s <= t }

  ghost predicate IsLatest(c: int, times: seq<int>) { c in times && forall t :: t in times ==> t <= c }

  function WindowOf(s: int, c: int): Window {
    Window(Some(Truncated(s)), Some(Truncated(c)), Max(0, RoundSeconds(c - s)))
  }

  // The wall clock is what the reported timestamps show, up to a second.
  ghost predicate IsClose(w: Window) {
    w.started.Some? && w.completed.Some? && w.started.value <= w.completed.value ==>
      -1 <= w.wallClock - (w.completed.value - w.started.value) <= 1
  }

  /** No job lasts longer than the workflow's wall clock, and the wall clock differs from what the two
      reported timestamps show by at most one second when the workflow did not end before it began. */
  method WorkflowTimeWindow(jobs: seq<JobTimes>) returns (w: Window)
    ensures forall i :: 0 <= i < |jobs| ==> DurationSeconds(jobs[i]) <= w.wallClock
    ensures Spans(w, jobs) && IsClose(w)
  {
    var started, completed := Started(jobs), Completed(jobs);
    forall i | 0 <= i < |jobs|
      ensures jobs[i].started.Some? ==> jobs[i].started.value in started
      ensures jobs[i].completed.Some? ==> jobs[i].completed.value in completed
    {
      assert MapSeq(jobs, (j: JobTimes) => j.started)[i] == jobs[i].started;
      assert MapSeq(jobs, (j: JobTimes) => j.completed)[i] == jobs[i].completed;
    }
    if started == [] || completed == [] { return Window(None, None, 0); }
    var s := Earliest(started);
    var c := Latest(completed);
    w := WindowOf(s, c);
    assert IsEarliest(s, started) && IsLatest(c, completed);
    forall i | 0 <= i < |jobs| ensures DurationSeconds(jobs[i]) <= w.wallClock {
      if jobs[i].started.Some? && jobs[i].completed.Some? {
        RoundIsMonotone(jobs[i].completed.value - jobs[i].started.value, c - s);
      }
    }
    WindowIsClose(s, c);
  }

  lemma WindowIsClose(s: int, c: int)
    ensures IsClose(WindowOf(s, c))
  {
  }

  // The first of the completed jobs that take the longest, and its duration.
  ghost predicate IsLongest(longest: Option<nat>, seconds: int, jobs: seq<JobTimes>) {
    if longest.None? then seconds == 0 && forall i :: 0 <= i < |jobs| ==> jobs[i].completed.None?
    else
      && longest.value < |jobs| && jobs[longest.value].completed.Some?
      && seconds == DurationSeconds(jobs[longest.value])
      && (forall i :: 0 <= i < |jobs| && jobs[i].completed.Some? ==> DurationSeconds(jobs[i]) <= seconds)
      && (forall i :: 0 <= i < longest.value && jobs[i].completed.Some? ==> DurationSeconds(jobs[i]) < seconds)
  }

  method LongestJob(jobs: seq<JobTimes>) returns (longest: Option<nat>, seconds: int)
    ensures IsLongest(longest, seconds, jobs)
  {
    longest, seconds := None, 0;
    for i := 0 to |jobs|
      invariant IsLongest(longest, seconds, jobs[..i])
    {
      if jobs[i].completed.Some? && (longest.None? || seconds < DurationSeconds(jobs[i])) {
        longest, seconds := Some(i), DurationSeconds(jobs[i]);
      }
      assert jobs[..i + 1] == jobs[..i] + [jobs[i]];
    }
    assert jobs[..|jobs|] == jobs;
  }

  /** The summary's longest job never exceeds its wall clock. */
  method Summarize(jobs: seq<JobTimes>) returns (window: Window, longest: Option<nat>, seconds: int)
    ensures Spans(window, jobs) && IsClose(window) && IsLongest(longest, seconds, jobs)
    ensures 0 <= seconds <= window.wallClock
    ensures forall i :: 0 <= i < |jobs| ==> DurationSeconds(jobs[i]) <= window.wallClock
  {
    window := WorkflowTimeWindow(jobs);
    longest, seconds := LongestJob(jobs);
  }
}

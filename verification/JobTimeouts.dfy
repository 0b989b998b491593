/** Every job must set a timeout of 1 to 60 minutes: what the check over the job blocks decides. */
module JobTimeouts {
  import opened Common
  import opened JobBlocks

  const MAX_TIMEOUT: nat := 60

  datatype TimeoutError = MissingTimeout(job: string) | TimeoutOutOfRange(job: string)

  // The error for a workflow without jobs, or the errors of its jobs.
  datatype Outcome = NoJobs | Jobs(errors: seq<TimeoutError>)

  ghost predicate Passes(outcome: Outcome) { outcome == Jobs([]) }

  function Timeouts(lines: seq<string>): seq<Option<nat>> { MapSeq(lines, TimeoutOf) }

  // The first timeout line after line h and before line end is in range.
  ghost predicate Limited(timeouts: seq<Option<nat>>, h: nat, end: nat) {
    exists t: nat :: h < t < end && t < |timeouts| && FirstLimit(timeouts, h, t)
  }

  ghost predicate FirstLimit(timeouts: seq<Option<nat>>, h: nat, t: nat)
    requires t < |timeouts|
  {
    timeouts[t].Some? && 1 <= timeouts[t].value <= MAX_TIMEOUT && forall i :: h < i < t ==> timeouts[i] == None
  }

  // Line h names a job that no later line names.
  ghost predicate IsLastHeader(names: seq<Option<string>>, h: nat) {
    h < |names| && names[h].Some? && forall i :: h < i < |names| ==> names[i] != names[h]
  }

  ghost predicate NextHeader(names: seq<Option<string>>, h: nat, end: nat) {
    h < end <= |names| && (forall i :: h < i < end ==> names[i] == None) && (end < |names| ==> names[end].Some?)
  }

  // The job that line h opens is limited by a timeout before the next header.
  ghost predicate JobIsLimited(names: seq<Option<string>>, timeouts: seq<Option<nat>>, h: nat) {
    exists end: nat :: NextHeader(names, h, end) && Limited(timeouts, h, end)
  }

  lemma HeaderThird(line: string)
    requires JobName(line).Some?
    ensures |line| > 2 && IsNameChar(line[2])
  {
  }

  lemma KeyCharacter(line: string, key: string, i: nat)
    requires LineText.AfterKey(line, key).Some? && i < |key|
    ensures i < |line| && line[i] == key[i]
  {
  }

  lemma HeaderIsNoTimeout(line: string)
    requires JobName(line).Some?
    ensures TimeoutOf(line) == None
  {
    HeaderThird(line);
    assert !IsNameChar(TIMEOUT[2]);
    if LineText.AfterKey(line, TIMEOUT).Some? { KeyCharacter(line, TIMEOUT, 2); }
  }

  // What each error says of the job opened at line h and ending before line end.
  ghost predicate SpanError(timeouts: seq<Option<nat>>, job: string, h: nat, end: nat, e: TimeoutError) {
    end <= |timeouts| && e.job == job &&
    match e
    case MissingTimeout(_) => forall i :: h < i < end ==> timeouts[i] == None
    case TimeoutOutOfRange(_) => exists t: nat :: h < t < end && IsBadLimit(timeouts, h, t)
  }

  ghost predicate IsBadLimit(timeouts: seq<Option<nat>>, h: nat, t: nat)
    requires t < |timeouts|
  {
    timeouts[t].Some? && !(1 <= timeouts[t].value <= MAX_TIMEOUT) && forall i :: h < i < t ==> timeouts[i] == None
  }

  // `re.search` for a timeout line in one block, given what its lines say.
  method CheckBlock(job: string, found: seq<Option<nat>>) returns (errors: seq<TimeoutError>)
    requires found != [] && found[0] == None
    ensures errors == [] <==> Limited(found, 0, |found|)
    ensures forall e :: e in errors <==> SpanError(found, job, 0, |found|, e)
  {
    for i := 0 to |found|
      invariant forall j :: 0 <= j < i ==> found[j] == None
    {
      if found[i].Some? {
        if found[i].value < 1 || found[i].value > MAX_TIMEOUT {
          assert IsBadLimit(found, 0, i);
          return [TimeoutOutOfRange(job)];
        }
        assert FirstLimit(found, 0, i);
        return [];
      }
    }
    return [MissingTimeout(job)];
  }

  lemma LimitedInBlock(timeouts: seq<Option<nat>>, h: nat, end: nat)
    requires h < end <= |timeouts|
    ensures Limited(timeouts[h..end], 0, end - h) <==> Limited(timeouts, h, end)
  {
    var found := timeouts[h..end];
    if t: nat :| 0 < t < end - h && t < |found| && FirstLimit(found, 0, t) {
      assert forall i :: h < i < h + t ==> found[i - h] == timeouts[i];
      assert FirstLimit(timeouts, h, h + t);
    }
    if t: nat :| h < t < end && t < |timeouts| && FirstLimit(timeouts, h, t) {
      assert FirstLimit(found, 0, t - h);
    }
  }

  lemma ErrorInBlock(timeouts: seq<Option<nat>>, job: string, h: nat, end: nat, e: TimeoutError)
    requires h < end <= |timeouts|
    ensures SpanError(timeouts[h..end], job, 0, end - h, e) <==> SpanError(timeouts, job, h, end, e)
  {
    var found := timeouts[h..end];
    if e.MissingTimeout? {
      assert forall i :: h < i < end ==> found[i - h] == timeouts[i];
    } else {
      if t: nat :| 0 < t < end - h && IsBadLimit(found, 0, t) {
        assert forall i :: h < i < h + t ==> found[i - h] == timeouts[i];
        assert IsBadLimit(timeouts, h, h + t);
      }
      if t: nat :| h < t < end && IsBadLimit(timeouts, h, t) { assert IsBadLimit(found, 0, t - h); }
    }
  }

  ghost predicate AllLimited(timeouts: seq<Option<nat>>, blocks: seq<Block>) {
    forall k :: 0 <= k < |blocks| ==> Limited(timeouts, blocks[k].start, blocks[k].end)
  }

  ghost predicate BlockError(timeouts: seq<Option<nat>>, blocks: seq<Block>, k: nat, e: TimeoutError) {
    k < |blocks| && SpanError(timeouts, blocks[k].job, blocks[k].start, blocks[k].end, e)
  }

  // The timeout lines of a block are those of its lines; its header is none.
  ghost predicate BlockStarts(timeouts: seq<Option<nat>>, b: Block) {
    b.start < b.end <= |timeouts| && timeouts[b.start] == None
  }

  // The errors are exactly those of the first n blocks.
  ghost predicate Explains(errors: seq<TimeoutError>, timeouts: seq<Option<nat>>, blocks: seq<Block>, n: nat) {
    forall e :: e in errors <==> exists k :: 0 <= k < n && BlockError(timeouts, blocks, k, e)
  }

  // They are exactly those of block k.
  ghost predicate ExplainsBlock(errors: seq<TimeoutError>, timeouts: seq<Option<nat>>, blocks: seq<Block>, k: nat) {
    forall e :: e in errors <==> BlockError(timeouts, blocks, k, e)
  }

  // What the lines of one block say.
  datatype Reading = Reading(job: string, timeouts: seq<Option<nat>>)

  function Read(entry: Entry): Reading { Reading(entry.job, Timeouts(entry.lines)) }

  function ReadingOf(timeouts: seq<Option<nat>>, b: Block): Reading
    requires BlockStarts(timeouts, b)
  {
    Reading(b.job, timeouts[b.start..b.end])
  }

  ghost predicate ReadingsOf(readings: seq<Reading>, timeouts: seq<Option<nat>>, blocks: seq<Block>) {
    && |readings| == |blocks|
    && forall k :: 0 <= k < |blocks| ==> BlockStarts(timeouts, blocks[k]) && readings[k] == ReadingOf(timeouts, blocks[k])
  }

  lemma EntriesAreRead(entries: seq<Entry>, lines: seq<string>, blocks: seq<Block>)
    requires HoldsBlocks(entries, lines, blocks)
    requires forall k :: 0 <= k < |blocks| ==> BlockStarts(Timeouts(lines), blocks[k])
    ensures ReadingsOf(MapSeq(entries, Read), Timeouts(lines), blocks)
  {
  }

  method CheckReadings(readings: seq<Reading>, ghost timeouts: seq<Option<nat>>, ghost blocks: seq<Block>)
      returns (errors: seq<TimeoutError>)
    requires ReadingsOf(readings, timeouts, blocks)
    ensures errors == [] <==> AllLimited(timeouts, blocks)
    ensures Explains(errors, timeouts, blocks, |blocks|)
  {
    errors := [];
    for k := 0 to |readings|
      invariant errors == [] <==> forall m :: 0 <= m < k ==> Limited(timeouts, blocks[m].start, blocks[m].end)
      invariant Explains(errors, timeouts, blocks, k)
    {
      var found := CheckReading(readings[k], timeouts, blocks, k);
      errors := errors + found;
    }
  }

  method CheckReading(reading: Reading, ghost timeouts: seq<Option<nat>>, ghost blocks: seq<Block>, ghost k: nat)
      returns (errors: seq<TimeoutError>)
    requires k < |blocks| && BlockStarts(timeouts, blocks[k]) && reading == ReadingOf(timeouts, blocks[k])
    ensures errors == [] <==> Limited(timeouts, blocks[k].start, blocks[k].end)
    ensures ExplainsBlock(errors, timeouts, blocks, k)
  {
    ghost var b := blocks[k];
    LimitedInBlock(timeouts, b.start, b.end);
    errors := CheckBlock(reading.job, reading.timeouts);
    forall e ensures e in errors <==> BlockError(timeouts, blocks, k, e) {
      ErrorInBlock(timeouts, b.job, b.start, b.end, e);
    }
  }

  // The error of a job, said of its last header and the next header after that.
  ghost predicate HeaderError(names: seq<Option<string>>, timeouts: seq<Option<nat>>, h: nat, end: nat, e: TimeoutError) {
    IsLastHeader(names, h) && NextHeader(names, h, end) && SpanError(timeouts, names[h].value, h, end, e)
  }

  lemma BlockErrorsAreHeaderErrors(names: seq<Option<string>>, timeouts: seq<Option<nat>>, blocks: seq<Block>, e: TimeoutError)
    requires |timeouts| == |names| && JobsOf(names, blocks, |names|)
    ensures (exists k :: 0 <= k < |blocks| && BlockError(timeouts, blocks, k, e)) <==>
            exists h: nat, end: nat :: HeaderError(names, timeouts, h, end, e)
  {
    if k :| 0 <= k < |blocks| && BlockError(timeouts, blocks, k, e) {
      assert IsBlock(names, blocks[k], |names|);
      assert HeaderError(names, timeouts, blocks[k].start, blocks[k].end, e);
    }
    if h: nat, end: nat :| HeaderError(names, timeouts, h, end, e) {
      assert Covered(names, blocks, h);
      var k :| 0 <= k < |blocks| && blocks[k].job == names[h].value;
      LastHeaderStarts(names, blocks[k], h);
      SameNext(names, h, end, blocks[k].end);
      assert BlockError(timeouts, blocks, k, e);
    }
  }

  lemma BlocksAreLastHeaders(names: seq<Option<string>>, timeouts: seq<Option<nat>>, blocks: seq<Block>)
    requires |timeouts| == |names| && JobsOf(names, blocks, |names|)
    ensures AllLimited(timeouts, blocks) <==>
              forall h: nat :: IsLastHeader(names, h) ==> JobIsLimited(names, timeouts, h)
  {
    if AllLimited(timeouts, blocks) {
      forall h: nat | IsLastHeader(names, h) ensures JobIsLimited(names, timeouts, h) {
        assert Covered(names, blocks, h);
        var k :| 0 <= k < |blocks| && blocks[k].job == names[h].value;
        LastHeaderStarts(names, blocks[k], h);
      }
    }
    if forall h: nat :: IsLastHeader(names, h) ==> JobIsLimited(names, timeouts, h) {
      forall k | 0 <= k < |blocks| ensures Limited(timeouts, blocks[k].start, blocks[k].end) {
        var b := blocks[k];
        assert IsBlock(names, b, |names|);
        assert IsLastHeader(names, b.start);
        var end: nat :| NextHeader(names, b.start, end) && Limited(timeouts, b.start, end);
        SameNext(names, b.start, end, b.end);
      }
    }
  }

  lemma LastHeaderStarts(names: seq<Option<string>>, b: Block, h: nat)
    requires IsBlock(names, b, |names|) && IsLastHeader(names, h) && names[h] == Some(b.job)
    ensures b.start == h && NextHeader(names, h, b.end)
  {
  }

  lemma SameNext(names: seq<Option<string>>, h: nat, a: nat, b: nat)
    requires NextHeader(names, h, a) && NextHeader(names, h, b)
    ensures a == b
  {
  }

  // Which lines are `jobs:` lines.
  function JobsLines(lines: seq<string>): seq<bool> { MapSeq(lines, IsJobsLine) }

  // Line j is the first of them.
  ghost predicate FirstJobsLine(flags: seq<bool>, j: nat) {
    j < |flags| && flags[j] && forall i :: 0 <= i < j ==> !flags[i]
  }

  method FindJobs(flags: seq<bool>) returns (found: Option<nat>)
    ensures found.Some? ==> FirstJobsLine(flags, found.value)
    ensures found.None? ==> forall j :: !FirstJobsLine(flags, j)
  {
    for i := 0 to |flags|
      invariant forall k :: 0 <= k < i ==> !flags[k]
    {
      if flags[i] { return Some(i); }
    }
    found := None;
  }

  lemma FirstIsUnique(flags: seq<bool>, i: nat, j: nat)
    requires FirstJobsLine(flags, i) && FirstJobsLine(flags, j)
    ensures i == j
  {
  }

  ghost predicate SomeHeader(body: seq<string>) { exists h :: 0 <= h < |body| && Names(body)[h].Some? }

  ghost predicate JobsAreLimited(body: seq<string>) {
    && SomeHeader(body)
    && forall h: nat :: IsLastHeader(Names(body), h) ==> JobIsLimited(Names(body), Timeouts(body), h)
  }

  ghost predicate BodyError(body: seq<string>, e: TimeoutError) {
    exists h: nat, end: nat :: HeaderError(Names(body), Timeouts(body), h, end, e)
  }

  // What the outcome says of the lines after the `jobs:` line.
  ghost predicate Judges(body: seq<string>, outcome: Outcome) {
    && (outcome.NoJobs? <==> !SomeHeader(body))
    && (outcome.Jobs? ==> forall e :: e in outcome.errors <==> BodyError(body, e))
  }

  /** No error means that there is a job, and that the last header of every job name is followed,
      before the next header, by a job-level timeout line of which the first is in 1 .. 60. */
  method ValidateBody(body: seq<string>) returns (outcome: Outcome)
    ensures Passes(outcome) <==> JobsAreLimited(body)
    ensures Judges(body, outcome)
  {
    var entries := JobBlocks.JobBlocks(body);
    ghost var blocks :| JobsOf(Names(body), blocks, |body|) && HoldsBlocks(entries, body, blocks);
    SomeJob(body, blocks);
    if entries == [] { return NoJobs; }
    forall h | 0 <= h < |body| && Names(body)[h].Some? ensures Timeouts(body)[h] == None {
      HeaderIsNoTimeout(body[h]);
    }
    BlocksStart(Names(body), Timeouts(body), blocks);
    BlocksAreLastHeaders(Names(body), Timeouts(body), blocks);
    EntriesAreRead(entries, body, blocks);
    var errors := CheckReadings(MapSeq(entries, Read), Timeouts(body), blocks);
    forall e ensures e in errors <==> BodyError(body, e) {
      BlockErrorsAreHeaderErrors(Names(body), Timeouts(body), blocks, e);
    }
    outcome := Jobs(errors);
  }

  lemma SomeJob(body: seq<string>, blocks: seq<Block>)
    requires JobsOf(Names(body), blocks, |body|)
    ensures blocks != [] <==> SomeHeader(body)
  {
    if blocks != [] { assert IsBlock(Names(body), blocks[0], |body|); }
    if h :| 0 <= h < |body| && Names(body)[h].Some? { assert Covered(Names(body), blocks, h); }
  }

  lemma BlocksStart(names: seq<Option<string>>, timeouts: seq<Option<nat>>, blocks: seq<Block>)
    requires JobsOf(names, blocks, |names|) && |timeouts| == |names|
    requires forall h :: 0 <= h < |names| && names[h].Some? ==> timeouts[h] == None
    ensures forall k :: 0 <= k < |blocks| ==> BlockStarts(timeouts, blocks[k])
  {
    forall k | 0 <= k < |blocks| ensures BlockStarts(timeouts, blocks[k]) {
      assert IsBlock(names, blocks[k], |names|);
    }
  }

  // The jobs listed after the first `jobs:` line are limited.
  ghost predicate WorkflowIsLimited(lines: seq<string>) {
    exists j: nat :: FirstJobsLine(JobsLines(lines), j) && JobsAreLimited(lines[j + 1..])
  }

  // The lines after the first `jobs:` line, if there is one.
  ghost predicate JudgesWorkflow(lines: seq<string>, outcome: Outcome) {
    (forall j: nat :: FirstJobsLine(JobsLines(lines), j) ==> Judges(lines[j + 1..], outcome)) &&
    ((forall j: nat :: !FirstJobsLine(JobsLines(lines), j)) ==> outcome == NoJobs)
  }

  /** The workflow passes exactly when the jobs after its first `jobs:` line are limited. */
  method ValidateJobTimeouts(lines: seq<string>) returns (outcome: Outcome)
    ensures Passes(outcome) <==> WorkflowIsLimited(lines)
    ensures JudgesWorkflow(lines, outcome)
  {
    var first := FindJobs(JobsLines(lines));
    if first.None? {
      outcome := NoJobs;
    } else {
      outcome := ValidateSection(lines, first.value);
    }
  }

  method ValidateSection(lines: seq<string>, j: nat) returns (outcome: Outcome)
    requires FirstJobsLine(JobsLines(lines), j)
    ensures Passes(outcome) <==> WorkflowIsLimited(lines)
    ensures JudgesWorkflow(lines, outcome)
  {
    OnlyFirstCounts(lines, j);
    outcome := ValidateBody(lines[j + 1..]);
    JudgedOnce(lines, j, outcome);
  }

  lemma JudgedOnce(lines: seq<string>, j: nat, outcome: Outcome)
    requires FirstJobsLine(JobsLines(lines), j) && Judges(lines[j + 1..], outcome)
    ensures JudgesWorkflow(lines, outcome)
  {
    forall k: nat | FirstJobsLine(JobsLines(lines), k) ensures Judges(lines[k + 1..], outcome) {
      FirstIsUnique(JobsLines(lines), j, k);
    }
  }

  lemma OnlyFirstCounts(lines: seq<string>, j: nat)
    requires FirstJobsLine(JobsLines(lines), j)
    ensures WorkflowIsLimited(lines) <==> JobsAreLimited(lines[j + 1..])
  {
    if k: nat :| FirstJobsLine(JobsLines(lines), k) && JobsAreLimited(lines[k + 1..]) {
      FirstIsUnique(JobsLines(lines), j, k);
    }
  }
}

/** Which job headers of a workflow the timeout check covers. */
module JobHeaders {
  import opened Common
  import opened DecimalText
  import opened JobBlocks
  import opened JobTimeouts

  // Every job header is followed, before the next one, by a timeout line of which the first is in range.
  ghost predicate EveryHeaderIsLimited(body: seq<string>) {
    forall h: nat :: h < |body| && Names(body)[h].Some? ==> JobIsLimited(Names(body), Timeouts(body), h)
  }

  /** Without repeated job names the check passes exactly when there is a job and every job header is
      followed, before the next one, by a timeout line of which the first is in 1 .. 60. */
  lemma DistinctHeadersAreChecked(body: seq<string>)
    requires DistinctNames(Names(body), |body|)
    ensures JobsAreLimited(body) <==> SomeHeader(body) && EveryHeaderIsLimited(body)
  {
  }

  // A plain line follows the header at line h.
  ghost predicate HasRoom(names: seq<Option<string>>, h: nat) { h + 1 < |names| && names[h + 1] == None }

  // Some last header is followed directly by another header or by the end of the file.
  ghost predicate SomeIsCramped(names: seq<Option<string>>) { exists h: nat :: IsLastHeader(names, h) && !HasRoom(names, h) }

  // Among the workflows with these headers, passing the check means that every header is limited.
  ghost predicate ChecksEveryHeader(names: seq<Option<string>>) {
    forall body :: Names(body) == names && JobsAreLimited(body) ==> EveryHeaderIsLimited(body)
  }

  /** A repeated job name hides its earlier header from the check.  So the check covers every header of
      the workflows with given headers exactly when no name repeats, or when none of those workflows can
      pass because some last header has no room for a timeout. */
  lemma EveryHeaderExactly(body: seq<string>)
    ensures ChecksEveryHeader(Names(body)) <==> DistinctNames(Names(body), |body|) || SomeIsCramped(Names(body))
  {
    var names := Names(body);
    if DistinctNames(names, |names|) {
      forall other | Names(other) == names && JobsAreLimited(other) ensures EveryHeaderIsLimited(other) {
        DistinctHeadersAreChecked(other);
      }
    } else if SomeIsCramped(names) {
      forall other | Names(other) == names ensures !JobsAreLimited(other) { CrampedIsNotLimited(other); }
    } else {
      NamesAreJobNames(body);
      HiddenHeader(names);
    }
  }

  lemma CrampedIsNotLimited(body: seq<string>)
    requires SomeIsCramped(Names(body))
    ensures !JobsAreLimited(body)
  {
    var h: nat :| IsLastHeader(Names(body), h) && !HasRoom(Names(body), h);
  }

  /***** A workflow that passes over a hidden header *****/

  ghost predicate IsJobName(job: string) { job != "" && forall i :: 0 <= i < |job| ==> IsNameChar(job[i]) }

  lemma NamesAreJobNames(body: seq<string>)
    ensures forall h :: 0 <= h < |body| && Names(body)[h].Some? ==> IsJobName(Names(body)[h].value)
  {
    forall h | 0 <= h < |body| && Names(body)[h].Some? ensures IsJobName(Names(body)[h].value) {
      JobNameExact(body[h], Names(body)[h].value);
    }
  }

  const ONE_MINUTE := " 1"

  // A line that names this job, or sets a timeout of one minute, or says nothing.
  ghost function LineFor(name: Option<string>, timed: bool): string {
    match name
    case Some(job) => INDENT + (job + (COLON + ""))
    case None => if timed then TIMEOUT + ONE_MINUTE else ""
  }

  lemma HeaderLineReads(job: string)
    requires IsJobName(job)
    ensures JobName(LineFor(Some(job), false)) == Some(job) && TimeoutOf(LineFor(Some(job), false)) == None
  {
    assert IsName(job + (COLON + ""), job, "");
    assert IsJobLine(LineFor(Some(job), false), job, job + (COLON + ""));
    JobNameExact(LineFor(Some(job), false), job);
    HeaderIsNoTimeout(LineFor(Some(job), false));
  }

  lemma TimedLineReads()
    ensures JobName(LineFor(None, true)) == None && TimeoutOf(LineFor(None, true)) == Some(1)
  {
    assert ONE_MINUTE == " " + "1";
    assert Value("1") == 1 by { assert "1"[..0] == ""; }
    assert IsNumber("1", "1", "", 1);
    assert IsTimeoutLine(LineFor(None, true), " ", "1", 1);
    TimeoutExact(LineFor(None, true), 1);
    if JobName(LineFor(None, true)).Some? { HeaderIsNoTimeout(LineFor(None, true)); }
  }

  lemma EmptyLineReads()
    ensures JobName("") == None && TimeoutOf("") == None
  {
  }

  // The headers of names, with a timeout directly after the last header of each name and nowhere else.
  ghost function Passing(names: seq<Option<string>>): (body: seq<string>)
    ensures |body| == |names|
  {
    seq(|names|, t requires 0 <= t < |names| => LineFor(names[t], IsTimed(names, t)))
  }

  ghost predicate IsTimed(names: seq<Option<string>>, t: nat) { t > 0 && IsLastHeader(names, t - 1) }

  // What the lines of Passing(names) say.
  ghost predicate Realizes(names: seq<Option<string>>, timeouts: seq<Option<nat>>) {
    && |timeouts| == |names|
    && forall t :: 0 <= t < |names| ==>
         timeouts[t] == if names[t] == None && IsTimed(names, t) then Some(1) else None
  }

  lemma PassingReads(names: seq<Option<string>>)
    requires forall h :: 0 <= h < |names| && names[h].Some? ==> IsJobName(names[h].value)
    ensures Names(Passing(names)) == names && Realizes(names, Timeouts(Passing(names)))
  {
    var body := Passing(names);
    TimedLineReads();
    EmptyLineReads();
    forall t | 0 <= t < |names|
      ensures JobName(body[t]) == names[t]
      ensures TimeoutOf(body[t]) == if names[t] == None && IsTimed(names, t) then Some(1) else None
    {
      if names[t].Some? { HeaderLineReads(names[t].value); }
    }
  }

  lemma LastIsLimited(names: seq<Option<string>>, timeouts: seq<Option<nat>>, h: nat)
    requires Realizes(names, timeouts) && IsLastHeader(names, h) && HasRoom(names, h)
    ensures JobIsLimited(names, timeouts, h)
  {
    var end := EndOf(names, h, h + 2);
    assert FirstLimit(timeouts, h, h + 1);
    assert Limited(timeouts, h, end);
  }

  lemma EndOf(names: seq<Option<string>>, h: nat, n: nat) returns (end: nat)
    requires h < n <= |names| && forall i :: h < i < n ==> names[i] == None
    ensures NextHeader(names, h, end) && n <= end
    decreases |names| - n
  {
    if n == |names| || names[n].Some? { end := n; } else { end := EndOf(names, h, n + 1); }
  }

  lemma HiddenIsNotLimited(names: seq<Option<string>>, timeouts: seq<Option<nat>>, i: nat, j: nat)
    requires Realizes(names, timeouts) && i < j < |names| && names[i].Some? && names[i] == names[j]
    ensures !JobIsLimited(names, timeouts, i)
  {
    forall end: nat | NextHeader(names, i, end) ensures !Limited(timeouts, i, end) {
      forall t | i < t < end ensures timeouts[t] == None {}
    }
  }

  lemma PassingIsLimited(names: seq<Option<string>>)
    requires forall h :: 0 <= h < |names| && names[h].Some? ==> IsJobName(names[h].value)
    requires !SomeIsCramped(names) && exists h :: 0 <= h < |names| && names[h].Some?
    ensures JobsAreLimited(Passing(names))
  {
    PassingReads(names);
    forall h: nat | IsLastHeader(names, h) ensures JobIsLimited(names, Timeouts(Passing(names)), h) {
      LastIsLimited(names, Timeouts(Passing(names)), h);
    }
  }

  // It passes, and the header at line i, which line j repeats, has no limit.
  lemma HiddenPasses(names: seq<Option<string>>, i: nat, j: nat)
    requires forall h :: 0 <= h < |names| && names[h].Some? ==> IsJobName(names[h].value)
    requires i < j < |names| && names[i].Some? && names[i] == names[j] && !SomeIsCramped(names)
    ensures Names(Passing(names)) == names
    ensures JobsAreLimited(Passing(names)) && !EveryHeaderIsLimited(Passing(names))
  {
    PassingIsLimited(names);
    PassingReads(names);
    HiddenIsNotLimited(names, Timeouts(Passing(names)), i, j);
    assert Names(Passing(names))[i].Some?;
  }

  lemma HiddenHeader(names: seq<Option<string>>)
    requires forall h :: 0 <= h < |names| && names[h].Some? ==> IsJobName(names[h].value)
    requires !DistinctNames(names, |names|) && !SomeIsCramped(names)
    ensures !ChecksEveryHeader(names)
  {
    var i, j :| 0 <= i < j < |names| && names[i].Some? && names[i] == names[j];
    HiddenPasses(names, i, j);
  }

  /***** One such workflow *****/

  const HIDING := [Some("a"), None, Some("a"), None]

  lemma HidingHasRoom()
    ensures IsLastHeader(HIDING, 2) && !SomeIsCramped(HIDING)
    ensures forall h :: 0 <= h < |HIDING| && HIDING[h].Some? ==> IsJobName(HIDING[h].value)
  {
    forall h: nat | IsLastHeader(HIDING, h) ensures HasRoom(HIDING, h) {
      assert HIDING[0] == HIDING[2];
    }
  }

  lemma HidingReads()
    ensures Passing(HIDING) == ["  a:", "", "  a:", "    timeout-minutes: 1"]
  {
    assert HIDING[0] == HIDING[2] && !IsTimed(HIDING, 1) && IsTimed(HIDING, 3);
    assert LineFor(Some("a"), false) == "  a:" && LineFor(None, false) == "";
    assert LineFor(None, true) == "    timeout-minutes: 1";
  }

  /** Four lines that pass the check, although the first job has no timeout. */
  lemma HidingPasses()
    ensures var body := ["  a:", "", "  a:", "    timeout-minutes: 1"];
            JobsAreLimited(body) && !EveryHeaderIsLimited(body)
  {
    HidingHasRoom();
    HiddenPasses(HIDING, 0, 2);
    HidingReads();
  }
}

/** The jobs of a workflow: a header line for each, the lines up to the next header, and its timeout. */
module JobBlocks {
  import opened Common
  import opened LineText
  import opened DecimalText

  predicate IsNameChar(c: char) {
    IsAlphanumeric(c) || c == '_' || c == '-'
  }

  lemma NameCharacters(c: char)
    ensures IsNameChar(c) <==> IsAlphanumeric(c) || c in {'_', '-'}
  {
  }

  const INDENT := "  "
  const COLON := ":"

  // A line of two spaces, a name, a colon and nothing more names a job.
  function JobName(line: string): Option<string> {
    var text := AfterKey(line, INDENT);
    if text.None? then None else NameIn(text.value)
  }

  // The name that text consists of, up to a colon and trailing blanks.
  function NameIn(text: string): Option<string> {
    var n := RunLength(text, IsNameChar);
    var tail := AfterKey(text[n..], COLON);
    if n > 0 && tail.Some? && IsBlank(tail.value) then Some(text[..n]) else None
  }

  const JOBS := "jobs"

  predicate IsJobsLine(line: string) {
    var gap := AfterKey(SkipSpaces(line), JOBS);
    gap.Some? &&
    var rest := AfterKey(SkipSpaces(gap.value), COLON);
    rest.Some? && IsComment(SkipSpaces(rest.value))
  }

  predicate IsComment(text: string) { text == "" || text[0] == '#' }

  const TIMEOUT := "    timeout-minutes:"

  // The value of a job-level timeout line.
  function TimeoutOf(line: string): Option<nat> { NumberAfter(line, TIMEOUT) }

  // The number that follows key.
  function NumberAfter(line: string, key: string): Option<nat> {
    var rest := AfterKey(line, key);
    if rest.None? then None else NumberIn(SkipSpaces(rest.value))
  }

  // The number that text consists of, up to trailing blanks.
  function NumberIn(text: string): Option<nat> {
    var n := RunLength(text, IsDigit);
    if n > 0 && IsBlank(text[n..]) then ParseInt(text[..n]) else None
  }

  /***** The line patterns, as concatenations *****/

  // A name, a colon and trailing blanks.
  ghost predicate IsName(text: string, job: string, tail: string) {
    job != "" && All(job, IsNameChar) && All(tail, IsSpace) && text == job + (COLON + tail)
  }

  lemma NameExact(text: string, job: string)
    ensures NameIn(text) == Some(job) <==> exists tail :: IsName(text, job, tail)
  {
    if NameIn(text) == Some(job) {
      var tail := AfterKey(text[|job|..], COLON).value;
      assert IsName(text, job, tail);
    }
    if tail :| IsName(text, job, tail) {
      assert Stops(COLON + tail, IsNameChar);
      RunIsLongest(job, COLON + tail, IsNameChar);
    }
  }

  // Two spaces before them.
  ghost predicate IsJobLine(line: string, job: string, text: string) {
    line == INDENT + text && exists tail :: IsName(text, job, tail)
  }

  lemma JobNameExact(line: string, job: string)
    ensures JobName(line) == Some(job) <==> exists text :: IsJobLine(line, job, text)
  {
    if JobName(line) == Some(job) {
      var text := AfterKey(line, INDENT).value;
      NameExact(text, job);
      assert IsJobLine(line, job, text);
    }
    if text :| IsJobLine(line, job, text) {
      NameExact(text, job);
    }
  }

  // Digits with this value, and trailing blanks.
  ghost predicate IsNumber(text: string, digits: string, tail: string, minutes: nat) {
    digits != "" && IsDigits(digits) && Value(digits) == minutes && All(tail, IsSpace) && text == digits + tail
  }

  ghost predicate Shows(text: string, minutes: nat) { exists digits, tail :: IsNumber(text, digits, tail, minutes) }

  lemma NumberExact(text: string, minutes: nat)
    ensures NumberIn(text) == Some(minutes) <==> Shows(text, minutes)
  {
    if NumberIn(text) == Some(minutes) {
      var n := RunLength(text, IsDigit);
      assert IsNumber(text, text[..n], text[n..], minutes);
    }
    if digits, tail :| IsNumber(text, digits, tail, minutes) {
      assert Stops(tail, IsDigit);
      RunIsLongest(digits, tail, IsDigit);
    }
  }

  // A key, blanks, and the number.
  ghost predicate IsNumberLine(line: string, key: string, blanks: string, text: string, minutes: nat) {
    line == key + (blanks + text) && All(blanks, IsSpace) && Shows(text, minutes)
  }

  lemma NumberIsShown(line: string, key: string, minutes: nat) returns (blanks: string, text: string)
    requires NumberAfter(line, key) == Some(minutes)
    ensures IsNumberLine(line, key, blanks, text, minutes)
  {
    var rest := AfterKey(line, key).value;
    text := SkipSpaces(rest);
    blanks := SpacesSplit(rest);
    NumberExact(text, minutes);
  }

  lemma ShownIsNumber(line: string, key: string, blanks: string, text: string, minutes: nat)
    requires IsNumberLine(line, key, blanks, text, minutes)
    ensures NumberAfter(line, key) == Some(minutes)
  {
    NumberExact(text, minutes);
    SkipsExactly(blanks, text);
  }

  // The timeout key with its indentation, blanks, and the number.
  ghost predicate IsTimeoutLine(line: string, blanks: string, text: string, minutes: nat) {
    IsNumberLine(line, TIMEOUT, blanks, text, minutes)
  }

  lemma TimeoutExact(line: string, minutes: nat)
    ensures TimeoutOf(line) == Some(minutes) <==> exists blanks, text :: IsTimeoutLine(line, blanks, text, minutes)
  {
    if TimeoutOf(line) == Some(minutes) {
      var blanks, text := NumberIsShown(line, TIMEOUT, minutes);
      assert IsTimeoutLine(line, blanks, text, minutes);
    }
    if blanks, text :| IsTimeoutLine(line, blanks, text, minutes) { ShownIsNumber(line, TIMEOUT, blanks, text, minutes); }
  }

  // Blanks, and nothing else but a comment.
  ghost predicate OnlyComment(rest: string) {
    exists blanks, comment :: All(blanks, IsSpace) && IsComment(comment) && rest == blanks + comment
  }

  lemma CommentExact(rest: string)
    ensures IsComment(SkipSpaces(rest)) <==> OnlyComment(rest)
  {
    assert rest == rest[..LeadingSpaces(rest)] + SkipSpaces(rest);
    if blanks, comment :| All(blanks, IsSpace) && IsComment(comment) && rest == blanks + comment {
      SkipsExactly(blanks, comment);
    }
  }

  // The key jobs, a colon, and nothing but blanks or a comment.
  ghost predicate IsJobsKeyLine(line: string, indent: string, middle: string, gap: string, rest: string) {
    Keyed(line, indent, JOBS, middle) && Keyed(middle, gap, COLON, rest) && OnlyComment(rest)
  }

  lemma JobsLineExact(line: string)
    ensures IsJobsLine(line) <==> exists indent, middle, gap, rest :: IsJobsKeyLine(line, indent, middle, gap, rest)
  {
    if IsJobsLine(line) {
      var middle := AfterKey(SkipSpaces(line), JOBS).value;
      var rest := AfterKey(SkipSpaces(middle), COLON).value;
      AfterKeyExact(line, JOBS, middle);
      AfterKeyExact(middle, COLON, rest);
      CommentExact(rest);
      var indent :| Keyed(line, indent, JOBS, middle);
      var gap :| Keyed(middle, gap, COLON, rest);
      assert IsJobsKeyLine(line, indent, middle, gap, rest);
    }
    if indent, middle, gap, rest :| IsJobsKeyLine(line, indent, middle, gap, rest) {
      AfterKeyExact(line, JOBS, middle);
      AfterKeyExact(middle, COLON, rest);
      CommentExact(rest);
    }
  }

  /***** Blocks over job names *****/

  // What the extraction looks at in a line: the job it names, if any.
  function Names(lines: seq<string>): seq<Option<string>> { MapSeq(lines, JobName) }

  // A job: its first header in the file, and its lines from its last header on.
  datatype Block = Block(job: string, first: nat, start: nat, end: nat)

  // The block runs from a header of its job to the next header or the end of the first n lines, and
  // its job is named by no earlier header than first and no later one than start.
  ghost predicate IsBlock(names: seq<Option<string>>, b: Block, n: nat) {
    && b.first <= b.start < b.end <= n <= |names|
    && names[b.first] == Some(b.job) && names[b.start] == Some(b.job)
    && (forall i :: 0 <= i < b.first ==> names[i] != Some(b.job))
    && (forall i :: b.start < i < n ==> names[i] != Some(b.job))
    && (forall i :: b.start < i < b.end ==> names[i] == None)
    && (b.end < n ==> names[b.end].Some?)
  }

  ghost predicate Listed(blocks: seq<Block>, job: string) { exists k :: 0 <= k < |blocks| && blocks[k].job == job }

  // If line i names a job, that job has a block.
  ghost predicate Covered(names: seq<Option<string>>, blocks: seq<Block>, i: nat)
    requires i < |names|
  {
    names[i].Some? ==> Listed(blocks, names[i].value)
  }

  // The blocks of the first n lines: every job named there, once, in the order of first headers.
  ghost predicate JobsOf(names: seq<Option<string>>, blocks: seq<Block>, n: nat) {
    && n <= |names|
    && (forall k :: 0 <= k < |blocks| ==> IsBlock(names, blocks[k], n))
    && (forall k, m :: 0 <= k < m < |blocks| ==> blocks[k].first < blocks[m].first)
    && (forall i :: 0 <= i < n ==> Covered(names, blocks, i))
  }

  // Block c is the one that the next line may join.
  ghost predicate IsCurrent(blocks: seq<Block>, c: nat, n: nat) {
    blocks != [] ==>
      && c < |blocks| && blocks[c].end == n
      && forall k :: 0 <= k < |blocks| && k != c ==> blocks[k].end < n
  }

  ghost predicate DistinctNames(names: seq<Option<string>>, n: nat) {
    forall i, j :: 0 <= i < j < n && j < |names| && names[i].Some? ==> names[i] != names[j]
  }

  ghost function Total(blocks: seq<Block>): int {
    if blocks == [] then 0
    else Total(blocks[..|blocks| - 1]) + blocks[|blocks| - 1].end - blocks[|blocks| - 1].start
  }

  // Without repeated names the blocks follow each other from the first header to line n; otherwise
  // the lines of earlier headers are missing.
  ghost predicate Accounts(names: seq<Option<string>>, blocks: seq<Block>, first: nat, n: nat) {
    && first <= n
    && (blocks == [] ==> first == n)
    && (DistinctNames(names, n) ==> Contiguous(blocks, first, n))
    && (if DistinctNames(names, n) then Total(blocks) == n - first else Total(blocks) < n - first)
  }

  ghost predicate Contiguous(blocks: seq<Block>, first: nat, n: nat) {
    blocks != [] ==>
      && blocks[0].start == first && blocks[|blocks| - 1].end == n
      && forall k :: 0 <= k < |blocks| - 1 ==> blocks[k].end == blocks[k + 1].start
  }

  lemma {:induction false} TotalUpdate(blocks: seq<Block>, k: nat, b: Block)
    requires k < |blocks|
    ensures Total(blocks[k := b]) == Total(blocks) - (blocks[k].end - blocks[k].start) + (b.end - b.start)
  {
    var last := |blocks| - 1;
    if k < last {
      assert blocks[k := b][..last] == blocks[..last][k := b];
      TotalUpdate(blocks[..last], k, b);
    } else {
      assert blocks[k := b][..last] == blocks[..last];
    }
  }

  /***** One line at a time *****/

  lemma PlainBlock(names: seq<Option<string>>, b: Block, n: nat)
    requires IsBlock(names, b, n) && n < |names| && names[n] == None
    ensures IsBlock(names, if b.end == n then b.(end := n + 1) else b, n + 1)
  {
  }

  // A line that names no job, before any header or in the current block.
  lemma PlainLine(names: seq<Option<string>>, blocks: seq<Block>, c: nat, n: nat)
    requires JobsOf(names, blocks, n) && IsCurrent(blocks, c, n) && n < |names| && names[n] == None
    ensures var grown := if blocks == [] then blocks else blocks[c := blocks[c].(end := n + 1)];
            JobsOf(names, grown, n + 1) && IsCurrent(grown, c, n + 1)
  {
    if blocks == [] {
      assert Covered(names, [], n);
    } else {
      var grown := blocks[c := blocks[c].(end := n + 1)];
      forall k | 0 <= k < |grown| ensures IsBlock(names, grown[k], n + 1) {
        PlainBlock(names, blocks[k], n);
      }
      assert forall k :: 0 <= k < |blocks| ==> grown[k].job == blocks[k].job && grown[k].first == blocks[k].first;
      forall i | 0 <= i < n + 1 ensures Covered(names, grown, i) {
        if i < n { CoverageSurvives(names, blocks, grown, i); }
      }
    }
  }

  lemma CoverageSurvives(names: seq<Option<string>>, blocks: seq<Block>, after: seq<Block>, i: nat)
    requires i < |names| && Covered(names, blocks, i)
    requires |blocks| <= |after| && forall k :: 0 <= k < |blocks| ==> after[k].job == blocks[k].job
    ensures Covered(names, after, i)
  {
  }

  lemma NewJob(names: seq<Option<string>>, blocks: seq<Block>, c: nat, n: nat, job: string)
    requires JobsOf(names, blocks, n) && IsCurrent(blocks, c, n) && n < |names| && names[n] == Some(job)
    requires !Listed(blocks, job)
    ensures var more := blocks + [Block(job, n, n, n + 1)];
            JobsOf(names, more, n + 1) && IsCurrent(more, |blocks|, n + 1)
  {
    var more := blocks + [Block(job, n, n, n + 1)];
    forall k | 0 <= k < |blocks| ensures IsBlock(names, more[k], n + 1) {
    }
    forall i | 0 <= i < n ensures names[i] != Some(job) {
      assert Covered(names, blocks, i);
    }
    assert IsBlock(names, more[|blocks|], n + 1);
    forall i | 0 <= i < n + 1 ensures Covered(names, more, i) {
      if i < n { CoverageSurvives(names, blocks, more, i); } else { assert more[|blocks|].job == job; }
    }
  }

  lemma AgainJob(names: seq<Option<string>>, blocks: seq<Block>, c: nat, n: nat, k: nat)
    requires JobsOf(names, blocks, n) && IsCurrent(blocks, c, n) && n < |names|
    requires k < |blocks| && names[n] == Some(blocks[k].job)
    ensures var moved := blocks[k := blocks[k].(start := n, end := n + 1)];
            JobsOf(names, moved, n + 1) && IsCurrent(moved, k, n + 1)
  {
    var moved := blocks[k := blocks[k].(start := n, end := n + 1)];
    AgainBlocks(names, blocks, n, k);
    assert forall m :: 0 <= m < |blocks| ==> moved[m].job == blocks[m].job && moved[m].first == blocks[m].first;
    forall i | 0 <= i < n + 1 ensures Covered(names, moved, i) {
      if i < n { CoverageSurvives(names, blocks, moved, i); } else { assert moved[k].job == names[n].value; }
    }
  }

  lemma AgainBlocks(names: seq<Option<string>>, blocks: seq<Block>, n: nat, k: nat)
    requires JobsOf(names, blocks, n) && n < |names|
    requires k < |blocks| && names[n] == Some(blocks[k].job)
    ensures IsBlock(names, blocks[k].(start := n, end := n + 1), n + 1)
    ensures forall m :: 0 <= m < |blocks| && m != k ==> IsBlock(names, blocks[m], n + 1)
    ensures forall m :: 0 <= m < |blocks| ==> blocks[m].end < n + 1
  {
  }

  /***** Accounting for every line *****/

  lemma PlainAccounts(names: seq<Option<string>>, blocks: seq<Block>, c: nat, first: nat, n: nat)
    requires JobsOf(names, blocks, n) && IsCurrent(blocks, c, n) && n < |names| && names[n] == None
    requires Accounts(names, blocks, first, n)
    ensures if blocks == [] then Accounts(names, blocks, n + 1, n + 1)
            else Accounts(names, blocks[c := blocks[c].(end := n + 1)], first, n + 1)
  {
    assert DistinctNames(names, n + 1) <==> DistinctNames(names, n);
    if blocks != [] {
      TotalUpdate(blocks, c, blocks[c].(end := n + 1));
    }
  }

  lemma NewAccounts(names: seq<Option<string>>, blocks: seq<Block>, c: nat, first: nat, n: nat, job: string)
    requires JobsOf(names, blocks, n) && IsCurrent(blocks, c, n) && n < |names| && names[n] == Some(job)
    requires !Listed(blocks, job) && Accounts(names, blocks, first, n)
    ensures Accounts(names, blocks + [Block(job, n, n, n + 1)], first, n + 1)
  {
    var more := blocks + [Block(job, n, n, n + 1)];
    assert more[..|blocks|] == blocks;
    forall i | 0 <= i < n ensures names[i] != Some(job) {
      assert Covered(names, blocks, i);
    }
    assert DistinctNames(names, n + 1) <==> DistinctNames(names, n);
  }

  lemma AgainAccounts(names: seq<Option<string>>, blocks: seq<Block>, c: nat, first: nat, n: nat, k: nat)
    requires JobsOf(names, blocks, n) && n < |names|
    requires k < |blocks| && names[n] == Some(blocks[k].job) && Accounts(names, blocks, first, n)
    ensures Accounts(names, blocks[k := blocks[k].(start := n, end := n + 1)], first, n + 1)
  {
    assert IsBlock(names, blocks[k], n);
    assert !DistinctNames(names, n + 1);
    TotalUpdate(blocks, k, blocks[k].(start := n, end := n + 1));
  }

  /***** The extraction *****/

  datatype Entry = Entry(job: string, lines: seq<string>)

  ghost predicate HoldsBlocks(entries: seq<Entry>, lines: seq<string>, blocks: seq<Block>) {
    && |entries| == |blocks|
    && forall k :: 0 <= k < |blocks| ==>
         && blocks[k].start < blocks[k].end <= |lines|
         && entries[k] == Entry(blocks[k].job, lines[blocks[k].start..blocks[k].end])
  }

  ghost function Flat(entries: seq<Entry>): seq<string> {
    if entries == [] then [] else Flat(entries[..|entries| - 1]) + entries[|entries| - 1].lines
  }

  lemma {:induction false} FlatLength(entries: seq<Entry>, lines: seq<string>, blocks: seq<Block>)
    requires HoldsBlocks(entries, lines, blocks)
    ensures |Flat(entries)| == Total(blocks)
  {
    if entries != [] {
      FlatLength(entries[..|entries| - 1], lines, blocks[..|blocks| - 1]);
    }
  }

  lemma {:induction false} FlatContiguous(entries: seq<Entry>, lines: seq<string>, blocks: seq<Block>, first: nat, n: nat)
    requires HoldsBlocks(entries, lines, blocks) && Contiguous(blocks, first, n)
    requires n <= |lines| && (blocks == [] ==> first == n)
    ensures first <= n && Flat(entries) == lines[first..n]
  {
    if entries != [] {
      var last := |blocks| - 1;
      if last == 0 {
        assert Flat(entries[..0]) == [];
      } else {
        assert blocks[last - 1].end == blocks[last - 1 + 1].start;
        FlatContiguous(entries[..last], lines, blocks[..last], first, blocks[last].start);
      }
      assert Flat(entries) == Flat(entries[..last]) + entries[last].lines;
      assert lines[first..n] == lines[first..blocks[last].start] + lines[blocks[last].start..n];
    }
  }

  // The loop's state: the blocks so far, the one that plain lines join, and where the first may start.
  datatype Extraction = Extraction(blocks: seq<Block>, current: nat, first: nat)

  function Find(blocks: seq<Block>, job: string): (k: nat)
    ensures k <= |blocks|
    ensures k < |blocks| ==> blocks[k].job == job
    ensures k == |blocks| ==> !Listed(blocks, job)
  {
    if blocks == [] then 0
    else
      var k := Find(blocks[..|blocks| - 1], job);
      if k < |blocks| - 1 then k else if blocks[|blocks| - 1].job == job then |blocks| - 1 else |blocks|
  }

  // Line n: a new job is appended, a repeated one starts over in its place, another line is joined.
  function Next(x: Extraction, name: Option<string>, n: nat): Extraction {
    match name
    case None =>
      if x.current < |x.blocks| then x.(blocks := x.blocks[x.current := x.blocks[x.current].(end := n + 1)])
      else x.(first := n + 1)
    case Some(job) =>
      var k := Find(x.blocks, job);
      if k == |x.blocks| then x.(blocks := x.blocks + [Block(job, n, n, n + 1)], current := k)
      else x.(blocks := x.blocks[k := x.blocks[k].(start := n, end := n + 1)], current := k)
  }

  function ExtractionAt(names: seq<Option<string>>, n: nat): Extraction
    requires n <= |names|
  {
    if n == 0 then Extraction([], 0, 0) else Next(ExtractionAt(names, n - 1), names[n - 1], n - 1)
  }

  ghost predicate Extracted(names: seq<Option<string>>, x: Extraction, n: nat) {
    && JobsOf(names, x.blocks, n) && IsCurrent(x.blocks, x.current, n) && Accounts(names, x.blocks, x.first, n)
    && (forall i :: 0 <= i < x.first ==> names[i] == None)
    && (x.blocks != [] ==> x.first < n && names[x.first].Some?)
    && (x.current < |x.blocks| <==> x.blocks != [])
  }

  lemma NextExtracted(names: seq<Option<string>>, x: Extraction, n: nat)
    requires Extracted(names, x, n) && n < |names|
    ensures Extracted(names, Next(x, names[n], n), n + 1)
  {
    if names[n] == None {
      PlainLine(names, x.blocks, x.current, n);
      PlainAccounts(names, x.blocks, x.current, x.first, n);
    } else {
      var job := names[n].value;
      var k := Find(x.blocks, job);
      if k == |x.blocks| {
        NewJob(names, x.blocks, x.current, n, job);
        NewAccounts(names, x.blocks, x.current, x.first, n, job);
      } else {
        AgainJob(names, x.blocks, x.current, n, k);
        AgainAccounts(names, x.blocks, x.current, x.first, n, k);
      }
    }
  }

  lemma {:induction false} AlwaysExtracted(names: seq<Option<string>>, n: nat)
    requires n <= |names|
    ensures Extracted(names, ExtractionAt(names, n), n)
  {
    if n > 0 {
      AlwaysExtracted(names, n - 1);
      NextExtracted(names, ExtractionAt(names, n - 1), n - 1);
    }
  }

  /***** The dictionary of lines *****/

  method IndexOf(entries: seq<Entry>, job: string, ghost blocks: seq<Block>) returns (k: nat)
    requires |entries| == |blocks| && forall m :: 0 <= m < |entries| ==> entries[m].job == blocks[m].job
    ensures k == Find(blocks, job)
  {
    k := 0;
    while k < |entries|
      invariant k <= |entries| && Find(blocks[..k], job) == k
    {
      assert blocks[..k + 1][..k] == blocks[..k];
      if entries[k].job == job {
        FindStops(blocks, job, k + 1);
        return;
      }
      k := k + 1;
    }
    assert blocks[..k] == blocks;
  }

  lemma {:induction false} FindStops(blocks: seq<Block>, job: string, n: nat)
    requires n <= |blocks| && Find(blocks[..n], job) < n
    ensures Find(blocks, job) == Find(blocks[..n], job)
  {
    if n < |blocks| {
      assert blocks[..|blocks| - 1][..n] == blocks[..n];
      FindStops(blocks[..|blocks| - 1], job, n);
    } else {
      assert blocks[..n] == blocks;
    }
  }

  lemma PlainHolds(entries: seq<Entry>, lines: seq<string>, x: Extraction, n: nat)
    requires HoldsBlocks(entries, lines, x.blocks) && n < |lines|
    requires x.current < |x.blocks| && x.blocks[x.current].end == n
    ensures var c := x.current;
            HoldsBlocks(entries[c := Entry(entries[c].job, entries[c].lines + [lines[n]])], lines, Next(x, None, n).blocks)
  {
  }

  // One line: a header opens its job's entry anew, another line joins the current one.
  method AddLine(entries: seq<Entry>, current: nat, line: string, name: Option<string>,
                 ghost lines: seq<string>, ghost x: Extraction, ghost n: nat)
      returns (more: seq<Entry>, next: nat)
    requires n < |lines| && lines[n] == line && current == x.current
    requires HoldsBlocks(entries, lines, x.blocks)
    requires x.current < |x.blocks| ==> x.blocks[x.current].end == n
    ensures HoldsBlocks(more, lines, Next(x, name, n).blocks) && next == Next(x, name, n).current
  {
    if name.Some? {
      next := IndexOf(entries, name.value, x.blocks);
      var entry := Entry(name.value, [line]);
      more := if next == |entries| then entries + [entry] else entries[next := entry];
    } else if current < |entries| {
      PlainHolds(entries, lines, x, n);
      more, next := entries[current := Entry(entries[current].job, entries[current].lines + [line])], current;
    } else {
      more, next := entries, current;
    }
  }

  // One pass over the lines, with the dictionary entry of the current job growing line by line.
  method CollectEntries(lines: seq<string>, names: seq<Option<string>>) returns (entries: seq<Entry>)
    requires |names| == |lines|
    ensures HoldsBlocks(entries, lines, ExtractionAt(names, |names|).blocks)
  {
    entries := [];
    var current: nat := 0;
    for i := 0 to |lines|
      invariant HoldsBlocks(entries, lines, ExtractionAt(names, i).blocks)
      invariant current == ExtractionAt(names, i).current
    {
      entries, current := AddLine(entries, current, lines[i], names[i], lines, ExtractionAt(names, i), i);
    }
  }

  lemma FlatExact(entries: seq<Entry>, lines: seq<string>, names: seq<Option<string>>, x: Extraction)
    requires |names| == |lines| && Extracted(names, x, |names|) && HoldsBlocks(entries, lines, x.blocks)
    ensures x.first <= |lines| && (Flat(entries) == lines[x.first..] <==> DistinctNames(names, |names|))
  {
    FlatLength(entries, lines, x.blocks);
    if DistinctNames(names, |names|) { FlatContiguous(entries, lines, x.blocks, x.first, |lines|); }
  }

  // The entries are the blocks of all jobs, and give back the lines from the first header on if and
  // only if no job name is repeated.
  ghost predicate AreJobBlocks(entries: seq<Entry>, lines: seq<string>) {
    && (exists blocks :: JobsOf(Names(lines), blocks, |lines|) && HoldsBlocks(entries, lines, blocks))
    && (exists first: nat :: FirstHeader(Names(lines), first) &&
          (Flat(entries) == lines[first..] <==> DistinctNames(Names(lines), |lines|)))
  }

  /** The blocks of the lines after `jobs:`, as an insertion-ordered dictionary. */
  method JobBlocks(lines: seq<string>) returns (entries: seq<Entry>)
    ensures AreJobBlocks(entries, lines)
  {
    var names := Names(lines);
    entries := CollectEntries(lines, names);
    ghost var blocks, first := FinalBlocks(lines, names, entries);
  }

  // Line first is the first that names a job, or the end.
  ghost predicate FirstHeader(names: seq<Option<string>>, first: nat) {
    first <= |names| && (forall i :: 0 <= i < first ==> names[i] == None) && (first < |names| ==> names[first].Some?)
  }

  lemma FinalBlocks(lines: seq<string>, names: seq<Option<string>>, entries: seq<Entry>)
      returns (blocks: seq<Block>, first: nat)
    requires |names| == |lines| && HoldsBlocks(entries, lines, ExtractionAt(names, |names|).blocks)
    ensures JobsOf(names, blocks, |lines|) && HoldsBlocks(entries, lines, blocks)
    ensures FirstHeader(names, first)
    ensures Flat(entries) == lines[first..] <==> DistinctNames(names, |lines|)
  {
    var x := ExtractionAt(names, |names|);
    AlwaysExtracted(names, |names|);
    FlatExact(entries, lines, names, x);
    blocks, first := x.blocks, x.first;
  }
}

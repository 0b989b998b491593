/** The shell blocks of a workflow: the lines under each `run: |` header. */
module RunBlocks {
  import opened Common
  import opened LineText

  const RUN := "run:"
  const BLOCK := "|"

  // A line holding only the key run and the block mark.
  predicate IsRunHeader(line: string) {
    var value := AfterKey(SkipSpaces(line), RUN);
    value.Some? &&
    var tail := AfterKey(SkipSpaces(value.value), BLOCK);
    tail.Some? && IsBlank(tail.value)
  }

  // Indentation, the key run, blanks, the block mark and trailing blanks.
  ghost predicate IsRunLine(line: string, indent: string, value: string, gap: string, tail: string) {
    Keyed(line, indent, RUN, value) && Keyed(value, gap, BLOCK, tail) && All(tail, IsSpace)
  }

  lemma RunHeaderExact(line: string)
    ensures IsRunHeader(line) <==> exists indent, value, gap, tail :: IsRunLine(line, indent, value, gap, tail)
  {
    if IsRunHeader(line) {
      var value := AfterKey(SkipSpaces(line), RUN).value;
      var tail := AfterKey(SkipSpaces(value), BLOCK).value;
      AfterKeyExact(line, RUN, value);
      AfterKeyExact(value, BLOCK, tail);
      var indent :| Keyed(line, indent, RUN, value);
      var gap :| Keyed(value, gap, BLOCK, tail);
      assert IsRunLine(line, indent, value, gap, tail);
    }
    if indent, value, gap, tail :| IsRunLine(line, indent, value, gap, tail) {
      AfterKeyExact(line, RUN, value);
      AfterKeyExact(value, BLOCK, tail);
    }
  }

  // What the extraction looks at in a line.
  datatype Shape = Shape(runHeader: bool, blank: bool, indent: nat)

  function ShapeOf(line: string): Shape { Shape(IsRunHeader(line), IsBlank(line), LeadingSpaces(line)) }

  function Shapes(lines: seq<string>): seq<Shape> { MapSeq(lines, ShapeOf) }

  // A line that ends a block whose header is indented by indent.
  ghost predicate Ends(line: Shape, indent: nat) { !line.blank && line.indent <= indent }

  // The header's index, and the index after the last line of its block.
  datatype Span = Span(header: nat, end: nat)

  // A block runs from below its header to the end of the file or the first line that ends it.
  ghost predicate IsSpan(lines: seq<Shape>, s: Span) {
    && s.header < s.end <= |lines|
    && lines[s.header].runHeader
    && (forall i :: s.header < i < s.end ==> !Ends(lines[i], lines[s.header].indent))
    && (s.end < |lines| ==> Ends(lines[s.end], lines[s.header].indent))
  }

  // Where the lines between blocks begin and end, before block k.
  ghost function GapStart(spans: seq<Span>, k: nat): nat
    requires k <= |spans|
  {
    if k == 0 then 0 else spans[k - 1].end
  }

  ghost function GapEnd(spans: seq<Span>, k: nat, n: nat): nat
    requires k <= |spans|
  {
    if k == |spans| then n else spans[k].header
  }

  // The blocks among the first n lines, in order and disjoint, with no header left between them.
  ghost predicate Decomposes(lines: seq<Shape>, spans: seq<Span>, n: nat) {
    && n <= |lines|
    && (forall k :: 0 <= k < |spans| ==> IsSpan(lines, spans[k]))
    && (forall k :: 0 <= k <= |spans| ==> GapStart(spans, k) <= GapEnd(spans, k, n))
    && (forall k, i :: 0 <= k <= |spans| && GapStart(spans, k) <= i < GapEnd(spans, k, n) && i < |lines| ==>
          !lines[i].runHeader)
  }

  /** Every header that is not inside a block starts one. */
  lemma {:induction false} EveryHeaderIsCovered(lines: seq<Shape>, spans: seq<Span>, n: nat, i: nat) returns (k: nat)
    requires Decomposes(lines, spans, n) && i < n && lines[i].runHeader
    ensures k < |spans| && spans[k].header <= i < spans[k].end
    decreases |spans|
  {
    var last := |spans| - 1;
    assert GapStart(spans, |spans|) <= GapEnd(spans, |spans|, n);
    if spans[last].header <= i {
      k := last;
    } else {
      var fewer := spans[..last];
      assert forall m :: 0 <= m <= last ==>
        GapStart(fewer, m) == GapStart(spans, m) && GapEnd(fewer, m, spans[last].header) == GapEnd(spans, m, n);
      k := EveryHeaderIsCovered(lines, fewer, spans[last].header, i);
    }
  }

  /** The decomposition is unique. */
  lemma DecompositionIsUnique(lines: seq<Shape>, a: seq<Span>, b: seq<Span>)
    requires Decomposes(lines, a, |lines|) && Decomposes(lines, b, |lines|)
    ensures a == b
  {
    var k := CommonPrefix(lines, a, b, 0);
  }

  // From equal first spans on, the spans agree one by one until both sides end.
  lemma CommonPrefix(lines: seq<Shape>, a: seq<Span>, b: seq<Span>, done: nat) returns (k: nat)
    requires Decomposes(lines, a, |lines|) && Decomposes(lines, b, |lines|)
    requires done <= |a| && done <= |b| && forall i :: 0 <= i < done ==> a[i] == b[i]
    ensures k == |a| == |b| && forall i :: 0 <= i < k ==> a[i] == b[i]
    decreases |a| - done
  {
    k := done;
    if done < |a| { NextHeaderIsShared(lines, a, b, done); }
    if done < |b| { NextHeaderIsShared(lines, b, a, done); }
    if done < |a| && done < |b| {
      k := CommonPrefix(lines, a, b, done + 1);
    }
  }

  lemma NextHeaderIsShared(lines: seq<Shape>, a: seq<Span>, b: seq<Span>, k: nat)
    requires Decomposes(lines, a, |lines|) && Decomposes(lines, b, |lines|)
    requires k < |a| && k <= |b| && forall i :: 0 <= i < k ==> a[i] == b[i]
    ensures k < |b| && b[k].header <= a[k].header
  {
    assert IsSpan(lines, a[k]);
    assert GapStart(a, k) <= GapEnd(a, k, |lines|);
    assert GapStart(b, k) == GapStart(a, k);
  }

  // The lines of a span's block.
  ghost function BlockOf(lines: seq<string>, s: Span): seq<string>
    requires s.header < s.end <= |lines|
  {
    lines[s.header + 1..s.end]
  }

  ghost predicate BlocksOf(blocks: seq<seq<string>>, lines: seq<string>, spans: seq<Span>) {
    && |blocks| == |spans|
    && forall k :: 0 <= k < |spans| ==>
         spans[k].header < spans[k].end <= |lines| && blocks[k] == BlockOf(lines, spans[k])
  }

  // The blocks are those of the one decomposition of the lines.
  ghost predicate AreRunBlocks(blocks: seq<seq<string>>, lines: seq<string>) {
    exists spans: seq<Span> :: Decomposes(Shapes(lines), spans, |lines|) && BlocksOf(blocks, lines, spans)
  }

  /** The nested index loops yield the blocks of the decomposition, in order. */
  method WorkflowRunBlocks(lines: seq<string>) returns (blocks: seq<seq<string>>)
    ensures AreRunBlocks(blocks, lines)
  {
    ghost var spans;
    blocks, spans := CollectBlocks(lines, Shapes(lines));
  }

  method CollectBlocks(lines: seq<string>, shapes: seq<Shape>) returns (blocks: seq<seq<string>>, ghost spans: seq<Span>)
    requires |shapes| == |lines|
    ensures Decomposes(shapes, spans, |lines|)
    ensures BlocksOf(blocks, lines, spans)
  {
    blocks, spans := [], [];
    var index := 0;
    while index < |lines|
      invariant 0 <= index <= |lines|
      invariant Decomposes(shapes, spans, index)
      invariant BlocksOf(blocks, lines, spans)
    {
      if !shapes[index].runHeader {
        OneMoreLine(shapes, spans, index);
        index := index + 1;
        continue;
      }
      var header := index;
      var block;
      block, index := CollectBlock(lines, shapes, header);
      ghost var last := Span(header, index);
      OneMoreSpan(shapes, spans, last);
      spans := spans + [last];
      blocks := blocks + [block];
    }
  }

  // The inner loop: the lines after a header up to the first that ends its block.
  method CollectBlock(lines: seq<string>, shapes: seq<Shape>, header: nat) returns (block: seq<string>, index: nat)
    requires |shapes| == |lines| && header < |lines| && shapes[header].runHeader
    ensures IsSpan(shapes, Span(header, index))
    ensures block == BlockOf(lines, Span(header, index))
  {
    var indentation := shapes[header].indent;
    block, index := [], header + 1;
    while index < |lines|
      invariant header < index <= |lines|
      invariant block == lines[header + 1..index]
      invariant forall i :: header < i < index ==> !Ends(shapes[i], indentation)
    {
      if !shapes[index].blank && shapes[index].indent <= indentation { break; }
      block := block + [lines[index]];
      index := index + 1;
    }
  }

  lemma OneMoreLine(lines: seq<Shape>, spans: seq<Span>, n: nat)
    requires Decomposes(lines, spans, n) && n < |lines| && !lines[n].runHeader
    ensures Decomposes(lines, spans, n + 1)
  {
  }

  lemma OneMoreSpan(lines: seq<Shape>, spans: seq<Span>, last: Span)
    requires IsSpan(lines, last) && Decomposes(lines, spans, last.header)
    ensures Decomposes(lines, spans + [last], last.end)
  {
    var more := spans + [last];
    assert forall k :: 0 <= k <= |spans| ==>
      GapStart(more, k) == GapStart(spans, k) && GapEnd(more, k, last.end) == GapEnd(spans, k, last.header);
    assert GapStart(more, |more|) == GapEnd(more, |more|, last.end) == last.end;
  }

  /***** The shell-block rule *****/

  const INPUTS := "${{ inputs."
  const SECRETS := "${{ secrets."

  ghost predicate Mentions(line: string) { Contains(line, INPUTS) || Contains(line, SECRETS) }

  // A line of the span's block mentions an input or a secret.
  ghost predicate SpanMentions(lines: seq<string>, s: Span) {
    s.end <= |lines| && exists i :: s.header < i < s.end && Mentions(lines[i])
  }

  // Some line inside a run block does.
  ghost predicate ShellUsesUntrusted(lines: seq<string>) {
    exists spans: seq<Span>, k: nat ::
      Decomposes(Shapes(lines), spans, |lines|) && k < |spans| && SpanMentions(lines, spans[k])
  }

  // The rule as it is checked: on the joined text of one block.
  method BlockMentions(lines: seq<string>, block: seq<string>, ghost s: Span) returns (found: bool)
    requires s.header < s.end <= |lines| && block == BlockOf(lines, s)
    ensures found <==> SpanMentions(lines, s)
  {
    var text := JoinLines(block);
    found := Contains(text, INPUTS) || Contains(text, SECRETS);
    ContainsJoined(block, INPUTS);
    ContainsJoined(block, SECRETS);
    assert forall i :: 0 <= i < |block| ==> block[i] == lines[s.header + 1 + i];
    if j :| s.header < j < s.end && Mentions(lines[j]) { assert block[j - s.header - 1] == lines[j]; }
  }

  lemma SpansDecide(lines: seq<string>, spans: seq<Span>)
    requires Decomposes(Shapes(lines), spans, |lines|)
    ensures ShellUsesUntrusted(lines) <==> exists k :: 0 <= k < |spans| && SpanMentions(lines, spans[k])
  {
    if ShellUsesUntrusted(lines) {
      var others: seq<Span>, k: nat :|
        Decomposes(Shapes(lines), others, |lines|) && k < |others| && SpanMentions(lines, others[k]);
      DecompositionIsUnique(Shapes(lines), spans, others);
    }
  }

  method AnyBlockMentions(lines: seq<string>, blocks: seq<seq<string>>, ghost spans: seq<Span>) returns (found: bool)
    requires BlocksOf(blocks, lines, spans)
    ensures found <==> exists k :: 0 <= k < |spans| && SpanMentions(lines, spans[k])
  {
    for k := 0 to |blocks|
      invariant forall m :: 0 <= m < k ==> !SpanMentions(lines, spans[m])
    {
      found := BlockMentions(lines, blocks[k], spans[k]);
      if found { return; }
    }
    found := false;
  }

  /***** Which lines the rule looks at *****/

  // Line j is under the run header at line h: down to j nothing ends its block.
  ghost predicate Encloses(lines: seq<Shape>, h: nat, j: nat) {
    h < j < |lines| && lines[h].runHeader && forall i :: h < i <= j ==> !Ends(lines[i], lines[h].indent)
  }

  ghost predicate IsEnclosed(lines: seq<Shape>, j: nat) { exists h: nat :: Encloses(lines, h, j) }

  ghost predicate InSpan(spans: seq<Span>, k: nat, j: nat) { k < |spans| && spans[k].header < j < spans[k].end }

  // A header under another header adds nothing: what it encloses, the outer one encloses.
  lemma OuterBlockReaches(lines: seq<Shape>, s: Span, h: nat, j: nat)
    requires IsSpan(lines, s) && Encloses(lines, h, j) && s.header <= h < s.end
    requires !lines[h].blank
    ensures s.header < j < s.end
  {
    var indent := lines[s.header].indent;
    assert h > s.header ==> !Ends(lines[h], indent);
    assert forall i :: h < i <= j ==> !Ends(lines[i], indent);
  }

  lemma EnclosedIsInSpan(lines: seq<Shape>, spans: seq<Span>, j: nat)
    requires Decomposes(lines, spans, |lines|) && j < |lines|
    requires forall h :: 0 <= h < |lines| && lines[h].runHeader ==> !lines[h].blank
    ensures IsEnclosed(lines, j) <==> exists k: nat :: InSpan(spans, k, j)
  {
    if k: nat :| InSpan(spans, k, j) {
      assert IsSpan(lines, spans[k]);
      assert Encloses(lines, spans[k].header, j);
    }
    if h: nat :| Encloses(lines, h, j) {
      var k := EveryHeaderIsCovered(lines, spans, |lines|, h);
      OuterBlockReaches(lines, spans[k], h, j);
      assert InSpan(spans, k, j);
    }
  }

  lemma HeaderIsNotBlank(line: string)
    requires IsRunHeader(line)
    ensures !IsBlank(line)
  {
    assert SkipSpaces(line) == RUN + AfterKey(SkipSpaces(line), RUN).value;
  }

  // A line under some run header mentions an input or a secret.
  ghost predicate SomeEnclosedMentions(lines: seq<string>) {
    exists j: nat :: j < |lines| && IsEnclosed(Shapes(lines), j) && Mentions(lines[j])
  }

  lemma SpanMentionsEnclosed(lines: seq<string>, spans: seq<Span>)
    requires Decomposes(Shapes(lines), spans, |lines|)
    ensures (exists k :: 0 <= k < |spans| && SpanMentions(lines, spans[k])) <==> SomeEnclosedMentions(lines)
  {
    var shapes := Shapes(lines);
    forall h | 0 <= h < |shapes| && shapes[h].runHeader ensures !shapes[h].blank { HeaderIsNotBlank(lines[h]); }
    if k :| 0 <= k < |spans| && SpanMentions(lines, spans[k]) {
      var j :| spans[k].header < j < spans[k].end && Mentions(lines[j]);
      assert IsSpan(shapes, spans[k]) && InSpan(spans, k, j);
      EnclosedIsInSpan(shapes, spans, j);
    }
    if j: nat :| j < |lines| && IsEnclosed(shapes, j) && Mentions(lines[j]) {
      EnclosedIsInSpan(shapes, spans, j);
      var k: nat :| InSpan(spans, k, j);
      assert IsSpan(shapes, spans[k]) && SpanMentions(lines, spans[k]);
    }
  }

  /** The error is raised exactly when a line inside a run block mentions inputs or secrets; told without
      blocks, when some run header stands above a mention with only blank and deeper lines from there
      down to the mention, itself included. */
  method ShellBlockError(lines: seq<string>) returns (error: bool)
    ensures error <==> ShellUsesUntrusted(lines)
    ensures error <==> SomeEnclosedMentions(lines)
  {
    var blocks := WorkflowRunBlocks(lines);
    ghost var spans: seq<Span> :| Decomposes(Shapes(lines), spans, |lines|) && BlocksOf(blocks, lines, spans);
    SpansDecide(lines, spans);
    SpanMentionsEnclosed(lines, spans);
    error := AnyBlockMentions(lines, blocks, spans);
  }
}

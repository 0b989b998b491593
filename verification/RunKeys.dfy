/** The run keys of a workflow's steps, the text under them, and which of it the shell-block rule sees. */
module RunKeys {
  import opened Common
  import opened LineText
  import opened RunBlocks

  // A step's run key: its indentation, the mark when the key opens the step, and what follows the colon.
  datatype RunKey = RunKey(indent: string, mark: string, rest: string)

  // No mark, or a dash and at least one blank.
  ghost predicate IsMark(mark: string) { mark == "" || (|mark| > 1 && mark[0] == '-' && All(mark[1..], IsSpace)) }

  ghost predicate IsKey(k: RunKey) { All(k.indent, IsSpace) && IsMark(k.mark) }

  ghost function KeyLine(k: RunKey): string { k.indent + (k.mark + (RUN + k.rest)) }

  // The column of the key itself; what belongs to it is indented deeper.
  ghost function Column(k: RunKey): nat { |k.indent| + |k.mark| }

  ghost function MarkOf(text: string): (mark: string)
    ensures mark <= text && IsMark(mark)
  {
    if text != "" && text[0] == '-' && LeadingSpaces(text[1..]) > 0 then text[..1 + LeadingSpaces(text[1..])] else ""
  }

  ghost function KeyOf(line: string): Option<RunKey> {
    var text := SkipSpaces(line);
    match AfterKey(text[|MarkOf(text)|..], RUN)
    case None => None
    case Some(rest) => Some(RunKey(line[..LeadingSpaces(line)], MarkOf(text), rest))
  }

  lemma KeyTextStops(k: RunKey)
    requires IsKey(k)
    ensures Stops(k.mark + (RUN + k.rest), IsSpace)
    ensures MarkOf(k.mark + (RUN + k.rest)) == k.mark
  {
    var rest := RUN + k.rest;
    assert rest[0] == 'r';
    if k.mark != "" {
      var text := k.mark + rest;
      assert text[1..] == k.mark[1..] + rest;
      RunIsLongest(k.mark[1..], rest, IsSpace);
      assert text[..|k.mark|] == k.mark;
    }
  }

  lemma KeyIsWritten(line: string, k: RunKey)
    requires KeyOf(line) == Some(k)
    ensures IsKey(k) && line == KeyLine(k)
  {
    var text := SkipSpaces(line);
    assert text == MarkOf(text) + text[|MarkOf(text)|..];
    assert line == line[..LeadingSpaces(line)] + text;
  }

  lemma WrittenIsKey(k: RunKey)
    requires IsKey(k)
    ensures KeyOf(KeyLine(k)) == Some(k)
  {
    var text, value := k.mark + (RUN + k.rest), RUN + k.rest;
    KeyTextStops(k);
    SkipsExactly(k.indent, text);
    RunIsLongest(k.indent, text, IsSpace);
    assert text[|k.mark|..] == value && value[|RUN|..] == k.rest;
  }

  /** The key read from a line is the one that the line is a writing of. */
  lemma KeyOfExact(line: string, k: RunKey)
    ensures KeyOf(line) == Some(k) <==> IsKey(k) && line == KeyLine(k)
  {
    if KeyOf(line) == Some(k) { KeyIsWritten(line, k); }
    if IsKey(k) { WrittenIsKey(k); }
  }

  // The block mark alone, without a chomping or folding mark and without a command on the line.
  ghost predicate IsBareBlockMark(rest: string) { exists gap, tail :: Keyed(rest, gap, BLOCK, tail) && All(tail, IsSpace) }

  ghost predicate Opens(k: RunKey) { k.mark == "" && IsBareBlockMark(k.rest) }

  /** Of all ways to write a run key only the plain one with a bare block mark opens a block. */
  lemma RunKeyOpensExactly(k: RunKey)
    requires IsKey(k)
    ensures IsRunHeader(KeyLine(k)) <==> Opens(k)
  {
    var text := k.mark + (RUN + k.rest);
    KeyTextStops(k);
    SkipsExactly(k.indent, text);
    if k.mark == "" {
      assert text == RUN + k.rest && text[|RUN|..] == k.rest;
      BareMark(k.rest);
    } else {
      assert text[0] == '-' && RUN[0] == 'r';
    }
  }

  lemma BareMark(rest: string)
    ensures IsBareBlockMark(rest) <==>
              var tail := AfterKey(SkipSpaces(rest), BLOCK); tail.Some? && IsBlank(tail.value)
  {
    if gap, tail :| Keyed(rest, gap, BLOCK, tail) && All(tail, IsSpace) {
      AfterKeyExact(rest, BLOCK, tail);
    }
    var tail := AfterKey(SkipSpaces(rest), BLOCK);
    if tail.Some? && IsBlank(tail.value) {
      AfterKeyExact(rest, BLOCK, tail.value);
    }
  }

  // Every header is a key that opens.
  lemma HeaderIsKey(line: string)
    ensures IsRunHeader(line) <==> KeyOf(line).Some? && Opens(KeyOf(line).value)
  {
    if IsRunHeader(line) {
      var text := SkipSpaces(line);
      assert text == RUN + AfterKey(text, RUN).value && text[0] == 'r';
    }
    if KeyOf(line).Some? {
      KeyOfExact(line, KeyOf(line).value);
      RunKeyOpensExactly(KeyOf(line).value);
    }
  }

  /***** The text of a run key *****/

  ghost function ColumnOf(line: string): Option<nat> {
    match KeyOf(line)
    case None => None
    case Some(k) => Some(Column(k))
  }

  ghost function Columns(lines: seq<string>): seq<Option<nat>> { MapSeq(lines, ColumnOf) }

  // Line j is the key line h, or under it with only blank and deeper lines from there on.
  ghost predicate InText(shapes: seq<Shape>, columns: seq<Option<nat>>, h: nat, j: nat) {
    && h <= j < |shapes| && h < |columns| && columns[h].Some?
    && forall i :: h < i <= j ==> !Ends(shapes[i], columns[h].value)
  }

  // Line h is a run key: it looks like one, and it is not part of the text of another.
  ghost predicate IsKeyAt(shapes: seq<Shape>, columns: seq<Option<nat>>, h: nat)
    decreases h
  {
    && h < |columns| && columns[h].Some?
    && forall g: nat :: g < h && IsKeyAt(shapes, columns, g) ==> !InText(shapes, columns, g, h)
  }

  // How what the extraction sees of a line goes with its key.
  ghost predicate Agree(shapes: seq<Shape>, columns: seq<Option<nat>>) {
    && |shapes| == |columns|
    && (forall i :: 0 <= i < |shapes| && columns[i].Some? ==>
          !shapes[i].blank && shapes[i].indent <= columns[i].value)
    && (forall i :: 0 <= i < |shapes| && shapes[i].runHeader ==> columns[i] == Some(shapes[i].indent))
  }

  lemma LineAgrees(line: string)
    ensures KeyOf(line).Some? ==> !IsBlank(line) && LeadingSpaces(line) <= Column(KeyOf(line).value)
    ensures IsRunHeader(line) ==> ColumnOf(line) == Some(LeadingSpaces(line))
  {
    HeaderIsKey(line);
    var text := SkipSpaces(line);
    assert line[..LeadingSpaces(line)] + text == line;
    if KeyOf(line).Some? { assert text[|MarkOf(text)|..] == RUN + KeyOf(line).value.rest; }
  }

  lemma LinesAgree(lines: seq<string>)
    ensures Agree(Shapes(lines), Columns(lines))
  {
    forall i | 0 <= i < |lines|
      ensures Shapes(lines)[i] == ShapeOf(lines[i]) && Columns(lines)[i] == ColumnOf(lines[i])
      ensures Columns(lines)[i].Some? ==> !IsBlank(lines[i]) && LeadingSpaces(lines[i]) <= Columns(lines)[i].value
      ensures IsRunHeader(lines[i]) ==> Columns(lines)[i] == Some(LeadingSpaces(lines[i]))
    {
      LineAgrees(lines[i]);
    }
  }

  // What looks like a key is one, or part of the text of one; so is what stands under it.
  lemma OwnerOf(shapes: seq<Shape>, columns: seq<Option<nat>>, h: nat, j: nat) returns (g: nat)
    requires Agree(shapes, columns) && InText(shapes, columns, h, j)
    ensures g <= h && IsKeyAt(shapes, columns, g) && InText(shapes, columns, g, j)
  {
    g := h;
    if !IsKeyAt(shapes, columns, h) {
      g :| g < h && IsKeyAt(shapes, columns, g) && InText(shapes, columns, g, h);
      assert !Ends(shapes[h], columns[g].value);
    }
  }

  lemma OneOwner(shapes: seq<Shape>, columns: seq<Option<nat>>, g: nat, h: nat, j: nat)
    requires IsKeyAt(shapes, columns, g) && IsKeyAt(shapes, columns, h)
    requires InText(shapes, columns, g, j) && InText(shapes, columns, h, j)
    ensures g == h
  {
    assert g < h ==> InText(shapes, columns, g, h);
    assert h < g ==> InText(shapes, columns, h, g);
  }

  // What a header encloses is the text under the key that the header is.
  lemma EnclosesIsText(shapes: seq<Shape>, columns: seq<Option<nat>>, g: nat, j: nat)
    requires Agree(shapes, columns)
    ensures Encloses(shapes, g, j) <==> g < j && InText(shapes, columns, g, j) && shapes[g].runHeader
  {
  }

  /***** What the rule sees *****/

  // Line j belongs to the run key at line h, on its line or below it.
  ghost predicate RunText(lines: seq<string>, h: nat, j: nat) {
    IsKeyAt(Shapes(lines), Columns(lines), h) && InText(Shapes(lines), Columns(lines), h, j)
  }

  // The key at line h opens a block, and line j is below it.
  ghost predicate Opened(lines: seq<string>, h: nat, j: nat) {
    h < j < |lines| && KeyOf(lines[h]).Some? && Opens(KeyOf(lines[h]).value)
  }

  // Somewhere in the text of the key at line h stands what reads as a header, and it encloses line j.
  ghost predicate LooksOpened(shapes: seq<Shape>, h: nat, j: nat) { exists g: nat :: h < g && Encloses(shapes, g, j) }

  lemma EnclosedFromOwner(shapes: seq<Shape>, columns: seq<Option<nat>>, h: nat, j: nat)
    requires Agree(shapes, columns) && IsKeyAt(shapes, columns, h) && InText(shapes, columns, h, j)
    ensures IsEnclosed(shapes, j) <==> Encloses(shapes, h, j) || LooksOpened(shapes, h, j)
  {
    if g: nat :| Encloses(shapes, g, j) {
      EnclosesIsText(shapes, columns, g, j);
      var owner := OwnerOf(shapes, columns, g, j);
      OneOwner(shapes, columns, owner, h, j);
    }
  }

  /** A line of run text is looked at exactly when its key opens a block and it stands below the key, or
      when the text itself holds a line that reads as a header above it. */
  lemma SeenExactly(lines: seq<string>, h: nat, j: nat)
    requires RunText(lines, h, j)
    ensures IsEnclosed(Shapes(lines), j) <==> Opened(lines, h, j) || LooksOpened(Shapes(lines), h, j)
  {
    LinesAgree(lines);
    HeaderIsKey(lines[h]);
    EnclosesIsText(Shapes(lines), Columns(lines), h, j);
    EnclosedFromOwner(Shapes(lines), Columns(lines), h, j);
    assert Shapes(lines)[h].runHeader == IsRunHeader(lines[h]);
  }

  // Nothing but run text is looked at.
  lemma SeenIsRunText(lines: seq<string>, j: nat) returns (h: nat)
    requires IsEnclosed(Shapes(lines), j)
    ensures RunText(lines, h, j)
  {
    var g: nat :| Encloses(Shapes(lines), g, j);
    LinesAgree(lines);
    EnclosesIsText(Shapes(lines), Columns(lines), g, j);
    h := OwnerOf(Shapes(lines), Columns(lines), g, j);
  }

  // Line j of the text of the key at line h mentions an input or a secret.
  ghost predicate TextMentions(lines: seq<string>, h: nat, j: nat) { RunText(lines, h, j) && Mentions(lines[j]) }

  /** The rule over a whole file, inline text included: the error is raised exactly when some run text
      mentions an input or a secret at a line that is seen, and never for anything else. */
  lemma RuleOverRunText(lines: seq<string>)
    ensures SomeEnclosedMentions(lines) <==>
              exists h: nat, j: nat :: TextMentions(lines, h, j) && (Opened(lines, h, j) || LooksOpened(Shapes(lines), h, j))
  {
    if SomeEnclosedMentions(lines) {
      var j: nat :| j < |lines| && IsEnclosed(Shapes(lines), j) && Mentions(lines[j]);
      var h := SeenIsRunText(lines, j);
      SeenExactly(lines, h, j);
      assert TextMentions(lines, h, j);
    }
    if h: nat, j: nat :| TextMentions(lines, h, j) && (Opened(lines, h, j) || LooksOpened(Shapes(lines), h, j)) {
      SeenExactly(lines, h, j);
    }
  }

  // A mention anywhere in the text of this key raises the error, whatever file the key is in.
  ghost predicate AlwaysCaught(k: RunKey) {
    forall lines: seq<string>, h: nat, j: nat ::
      TextMentions(lines, h, j) && lines[h] == KeyLine(k) ==> SomeEnclosedMentions(lines)
  }

  /** The key forms that the rule guards, over all files: a mention in the text of a key raises the error
      in every file if and only if the key opens a block. */
  lemma AlwaysCaughtExactly(k: RunKey)
    requires IsKey(k)
    ensures AlwaysCaught(k) <==> Opens(k)
  {
    if Opens(k) {
      forall lines: seq<string>, h: nat, j: nat | TextMentions(lines, h, j) && lines[h] == KeyLine(k)
        ensures SomeEnclosedMentions(lines)
      {
        OpenedIsCaught(lines, h, j, k);
      }
    } else {
      Escapes(k);
    }
  }

  lemma OpenedIsCaught(lines: seq<string>, h: nat, j: nat, k: RunKey)
    requires IsKey(k) && Opens(k) && TextMentions(lines, h, j) && lines[h] == KeyLine(k)
    ensures SomeEnclosedMentions(lines)
  {
    KeyOfExact(lines[h], k);
    OpeningLineIsClean(k);
    assert h < j && Opened(lines, h, j);
    SeenExactly(lines, h, j);
  }

  lemma OpeningLineIsClean(k: RunKey)
    requires IsKey(k) && Opens(k)
    ensures !Mentions(KeyLine(k))
  {
    var gap, tail :| Keyed(k.rest, gap, BLOCK, tail) && All(tail, IsSpace);
    assert '$' !in KeyLine(k);
    NeedsDollar(KeyLine(k), INPUTS);
    NeedsDollar(KeyLine(k), SECRETS);
  }

  lemma NeedsDollar(line: string, fragment: string)
    requires fragment != "" && fragment[0] == '$' && '$' !in line
    ensures !Contains(line, fragment)
  {
    forall i | 0 <= i <= |line| - |fragment| ensures !At(line, fragment, i) {
      assert line[i..i + |fragment|][0] == line[i];
    }
  }

  /** A file with no key that opens raises no error, whatever its lines mention. */
  lemma OtherKeysEscape(lines: seq<string>)
    requires forall i :: 0 <= i < |lines| ==> !IsRunHeader(lines[i])
    ensures !SomeEnclosedMentions(lines)
  {
    forall j: nat ensures !IsEnclosed(Shapes(lines), j) {
      forall h: nat ensures !Encloses(Shapes(lines), h, j) {
        assert h < |lines| ==> Shapes(lines)[h] == ShapeOf(lines[h]);
      }
    }
  }

  const COMMAND := INPUTS + "target }}"

  ghost function Blanks(n: nat): string { seq(n, _ => ' ') }

  // A line below any key, with a mention.
  lemma MentionLine(n: nat)
    ensures var line := Blanks(n) + COMMAND;
            Mentions(line) && !IsBlank(line) && LeadingSpaces(line) == n && !IsRunHeader(line)
  {
    var line := Blanks(n) + COMMAND;
    assert COMMAND[0] == '$' && RUN[0] == 'r';
    SkipsExactly(Blanks(n), COMMAND);
    RunIsLongest(Blanks(n), COMMAND, IsSpace);
    assert At(line, INPUTS, n);
  }

  // Under a key that does not open a block a mention is not seen.
  lemma Escapes(k: RunKey)
    requires IsKey(k) && !Opens(k)
    ensures var lines := [KeyLine(k), Blanks(Column(k) + 1) + COMMAND];
            TextMentions(lines, 0, 1) && !SomeEnclosedMentions(lines)
  {
    var mention := Blanks(Column(k) + 1) + COMMAND;
    var lines := [KeyLine(k), mention];
    KeyOfExact(lines[0], k);
    RunKeyOpensExactly(k);
    MentionLine(Column(k) + 1);
    var shapes, columns := Shapes(lines), Columns(lines);
    assert shapes[1] == ShapeOf(lines[1]) && columns[0] == ColumnOf(lines[0]);
    assert InText(shapes, columns, 0, 1) && IsKeyAt(shapes, columns, 0);
    assert forall i :: 0 <= i < |lines| ==> lines[i] == KeyLine(k) || lines[i] == mention;
    OtherKeysEscape(lines);
  }

  const STEP := RunKey("    ", "- ", " |")

  /** Such a file: the block opens its step, so its key is dashed, and the mention is not caught. */
  lemma DashedStepEscapes()
    ensures var lines := ["    " + ("- " + (RUN + " |")), Blanks(7) + COMMAND];
            TextMentions(lines, 0, 1) && !SomeEnclosedMentions(lines)
  {
    assert All("    ", IsSpace) && All("- "[1..], IsSpace);
    Escapes(STEP);
  }
}

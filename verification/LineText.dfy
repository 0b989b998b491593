// Lines of a workflow file: indentation, blank lines, and text that a line mentions.
module LineText {
  import opened Common

  // White space that can stand inside a line.
  predicate IsSpace(c: char) { c == ' ' || c == '\t' }

  predicate IsAlphanumeric(c: char) { 'A' <= c <= 'Z' || 'a' <= c <= 'z' || '0' <= c <= '9' }

  lemma AlphanumericBounds()
    ensures forall c :: c in {'A', 'Z', 'a', 'z', '0', '9'} ==> IsAlphanumeric(c)
    ensures forall c :: c in {'@', '[', '`', '{', '/', ':'} ==> !IsAlphanumeric(c)
  {
  }

  // The length of the longest start of text in which every character satisfies p.
  function RunLength(text: string, p: char -> bool): (n: nat)
    ensures n <= |text|
    ensures forall i :: 0 <= i < n ==> p(text[i])
    ensures n < |text| ==> !p(text[n])
  {
    if text == "" || !p(text[0]) then 0 else 1 + RunLength(text[1..], p)
  }

  function LeadingSpaces(line: string): (n: nat)
    ensures n <= |line|
  {
    RunLength(line, IsSpace)
  }

  function SkipSpaces(line: string): string { line[LeadingSpaces(line)..] }

  predicate IsBlank(line: string) { SkipSpaces(line) == "" }

  lemma BlankExact(line: string)
    ensures IsBlank(line) <==> forall i :: 0 <= i < |line| ==> line[i] in {' ', '\t'}
  {
  }

  // Every character of text satisfies p.
  ghost predicate All(text: string, p: char -> bool) { forall i :: 0 <= i < |text| ==> p(text[i]) }

  // text is empty or goes on with a character that does not satisfy p.
  ghost predicate Stops(text: string, p: char -> bool) { text == "" || !p(text[0]) }

  /** The longest run is the one that is followed by a character outside it. */
  lemma RunIsLongest(head: string, rest: string, p: char -> bool)
    requires All(head, p) && Stops(rest, p)
    ensures RunLength(head + rest, p) == |head|
    ensures (head + rest)[..|head|] == head && (head + rest)[|head|..] == rest
  {
  }

  // What follows key at the start of text.
  function AfterKey(text: string, key: string): (r: Option<string>)
    ensures r.Some? ==> text == key + r.value
  {
    if key <= text then Some(text[|key|..]) else None
  }

  ghost predicate Keyed(line: string, blanks: string, key: string, rest: string) {
    All(blanks, IsSpace) && line == blanks + (key + rest)
  }

  lemma SpacesSplit(line: string) returns (blanks: string)
    ensures All(blanks, IsSpace) && line == blanks + SkipSpaces(line)
  {
    blanks := line[..LeadingSpaces(line)];
  }

  lemma SkipsExactly(blanks: string, rest: string)
    requires All(blanks, IsSpace) && Stops(rest, IsSpace)
    ensures SkipSpaces(blanks + rest) == rest
  {
    RunIsLongest(blanks, rest, IsSpace);
  }

  /** Skipping blanks and then a key is matching them both, in one way. */
  lemma AfterKeyExact(line: string, key: string, rest: string)
    requires key != "" && !IsSpace(key[0])
    ensures AfterKey(SkipSpaces(line), key) == Some(rest) <==> exists blanks :: Keyed(line, blanks, key, rest)
  {
    if AfterKey(SkipSpaces(line), key) == Some(rest) {
      assert Keyed(line, line[..LeadingSpaces(line)], key, rest);
    }
    if blanks :| Keyed(line, blanks, key, rest) {
      SkipsExactly(blanks, key + rest);
      assert (key + rest)[|key|..] == rest;
    }
  }

  predicate At(text: string, fragment: string, i: int) {
    0 <= i <= |text| - |fragment| && text[i..i + |fragment|] == fragment
  }

  predicate Contains(text: string, fragment: string) {
    exists i :: 0 <= i <= |text| - |fragment| && At(text, fragment, i)
  }

  /** Containing a fragment is being a concatenation around it. */
  lemma ContainsExact(text: string, fragment: string)
    ensures Contains(text, fragment) <==> exists left, right :: text == left + (fragment + right)
  {
    if i :| 0 <= i <= |text| - |fragment| && At(text, fragment, i) {
      assert text == text[..i] + (text[i..i + |fragment|] + text[i + |fragment|..]);
    }
    if left, right :| text == left + (fragment + right) {
      assert text[|left|..|left| + |fragment|] == fragment;
      assert At(text, fragment, |left|);
    }
  }

  // "\n".join
  function JoinLines(lines: seq<string>): string {
    if lines == [] then ""
    else if |lines| == 1 then lines[0]
    else lines[0] + "\n" + JoinLines(lines[1..])
  }

  lemma ContainsInside(left: string, text: string, right: string, fragment: string)
    requires Contains(text, fragment)
    ensures Contains(left + text + right, fragment)
  {
    var i :| 0 <= i <= |text| - |fragment| && At(text, fragment, i);
    var whole := left + text + right;
    assert whole[|left| + i..|left| + i + |fragment|] == fragment;
    assert At(whole, fragment, |left| + i);
  }

  lemma ContainsSplit(head: string, tail: string, fragment: string)
    requires '\n' !in fragment && Contains(head + "\n" + tail, fragment)
    ensures Contains(head, fragment) || Contains(tail, fragment)
  {
    var whole := head + "\n" + tail;
    var i :| 0 <= i <= |whole| - |fragment| && At(whole, fragment, i);
    assert forall j :: 0 <= j < |fragment| ==> fragment[j] == whole[i + j];
    assert forall j :: i <= j < i + |fragment| ==> whole[j] == fragment[j - i] && whole[j] != '\n';
    assert whole[|head|] == '\n';
    if i + |fragment| <= |head| {
      assert At(head, fragment, i);
    } else {
      var j := i - |head| - 1;
      assert At(tail, fragment, j);
    }
  }

  /** A fragment without a line break is in the joined text exactly when it is in one of the lines. */
  lemma {:induction false} ContainsJoined(lines: seq<string>, fragment: string)
    requires fragment != "" && '\n' !in fragment
    ensures Contains(JoinLines(lines), fragment) <==> exists i :: 0 <= i < |lines| && Contains(lines[i], fragment)
  {
    if |lines| > 1 {
      ContainsJoined(lines[1..], fragment);
      var tail := JoinLines(lines[1..]);
      assert JoinLines(lines) == "" + lines[0] + ("\n" + tail) == (lines[0] + "\n") + tail + "";
      if Contains(lines[0], fragment) { ContainsInside("", lines[0], "\n" + tail, fragment); }
      if i :| 1 <= i < |lines| && Contains(lines[i], fragment) {
        assert lines[1..][i - 1] == lines[i];
        ContainsInside(lines[0] + "\n", tail, "", fragment);
      }
      if Contains(JoinLines(lines), fragment) {
        ContainsSplit(lines[0], tail, fragment);
        if Contains(tail, fragment) {
          var i :| 0 <= i < |lines[1..]| && Contains(lines[1..][i], fragment);
          assert lines[i + 1] == lines[1..][i];
        }
      }
    }
  }
}

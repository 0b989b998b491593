/** Package names in one canonical form (PEP 503, section "Normalized Names"), and locks keyed by it. */
module PackageNames {
  import opened Common
  import opened LineText

  predicate IsSeparator(c: char) { c == '-' || c == '_' || c == '.' }

  function Lower(c: char): char { if 'A' <= c <= 'Z' then c + 32 as char else c }

  // The pairs of a capital and its small letter.
  ghost const SMALL_LETTERS: map<char, char> := map[
    'A' := 'a', 'B' := 'b', 'C' := 'c', 'D' := 'd', 'E' := 'e', 'F' := 'f', 'G' := 'g',
    'H' := 'h', 'I' := 'i', 'J' := 'j', 'K' := 'k', 'L' := 'l', 'M' := 'm', 'N' := 'n',
    'O' := 'o', 'P' := 'p', 'Q' := 'q', 'R' := 'r', 'S' := 's', 'T' := 't', 'U' := 'u',
    'V' := 'v', 'W' := 'w', 'X' := 'x', 'Y' := 'y', 'Z' := 'z'
  ]

  ghost function SmallOf(c: char): char { if c in SMALL_LETTERS then SMALL_LETTERS[c] else c }

  lemma FirstCapitals(c: char)
    requires 'A' <= c <= 'F'
    ensures Lower(c) == SmallOf(c)
  {
    assert c == 'A' || c == 'B' || c == 'C' || c == 'D' || c == 'E' || c == 'F';
  }

  lemma MiddleCapitals(c: char)
    requires 'G' <= c <= 'M'
    ensures Lower(c) == SmallOf(c)
  {
    assert c == 'G' || c == 'H' || c == 'I' || c == 'J' || c == 'K' || c == 'L' || c == 'M';
  }

  lemma LastCapitals(c: char)
    requires 'N' <= c <= 'Z'
    ensures Lower(c) == SmallOf(c)
  {
    assert c == 'N' || c == 'O' || c == 'P' || c == 'Q' || c == 'R' || c == 'S' || c == 'T' || c == 'U' || c == 'V'
        || c == 'W' || c == 'X' || c == 'Y' || c == 'Z';
  }

  lemma LowerExact(c: char)
    ensures Lower(c) == SmallOf(c)
  {
    if 'A' <= c <= 'F' { FirstCapitals(c); }
    if 'G' <= c <= 'M' { MiddleCapitals(c); }
    if 'N' <= c <= 'Z' { LastCapitals(c); }
  }

  // Each run of separators becomes one hyphen; afterRun says that a run has just been replaced.
  function CanonicalFrom(name: string, afterRun: bool): string {
    if name == "" then ""
    else if IsSeparator(name[0]) then (if afterRun then "" else "-") + CanonicalFrom(name[1..], true)
    else [Lower(name[0])] + CanonicalFrom(name[1..], false)
  }

  function Canonical(name: string): string { CanonicalFrom(name, false) }

  // Nothing is left to normalise: no capital, no separator but the hyphen, no two hyphens in a row.
  predicate IsCanonical(name: string) {
    && (forall i :: 0 <= i < |name| ==> !('A' <= name[i] <= 'Z') && name[i] != '_' && name[i] != '.')
    && (forall i :: 0 <= i < |name| - 1 ==> !(name[i] == '-' && name[i + 1] == '-'))
  }

  lemma {:induction false} CanonicalFromIsCanonical(name: string, afterRun: bool)
    ensures var c := CanonicalFrom(name, afterRun);
            IsCanonical(c) && (afterRun && c != "" ==> c[0] != '-')
  {
    if name != "" {
      var rest := CanonicalFrom(name[1..], IsSeparator(name[0]));
      CanonicalFromIsCanonical(name[1..], IsSeparator(name[0]));
      if !IsSeparator(name[0]) || !afterRun {
        var c := CanonicalFrom(name, afterRun);
        assert c[1..] == rest;
        forall i | 0 <= i < |c| - 1 ensures !(c[i] == '-' && c[i + 1] == '-') {
          if i > 0 { assert c[i] == rest[i - 1] && c[i + 1] == rest[i]; }
        }
      }
    }
  }

  lemma {:induction false} CanonicalFromFixes(name: string, afterRun: bool)
    requires IsCanonical(name) && (afterRun && name != "" ==> name[0] != '-')
    ensures CanonicalFrom(name, afterRun) == name
  {
    if name != "" {
      var rest := name[1..];
      assert name == [name[0]] + rest;
      assert forall i :: 0 <= i < |rest| ==> rest[i] == name[i + 1];
      CanonicalFromFixes(rest, IsSeparator(name[0]));
    }
  }

  /** The canonical form is canonical, and the names it leaves alone are exactly the canonical ones. */
  lemma CanonicalExact(name: string)
    ensures IsCanonical(Canonical(name))
    ensures Canonical(Canonical(name)) == Canonical(name)
    ensures Canonical(name) == name <==> IsCanonical(name)
  {
    CanonicalFromIsCanonical(name, false);
    CanonicalFromFixes(Canonical(name), false);
    if IsCanonical(name) { CanonicalFromFixes(name, false); }
  }

  ghost predicate IsWord(text: string) { forall i :: 0 <= i < |text| ==> text[i] !in {'-', '_', '.'} }

  ghost predicate IsRun(text: string) { text != "" && forall i :: 0 <= i < |text| ==> text[i] in {'-', '_', '.'} }

  ghost function Smalls(text: string): string { MapSeq(text, SmallOf) }

  lemma {:induction false} WordFirst(word: string, rest: string, afterRun: bool)
    requires IsWord(word) && (word == "" ==> !afterRun)
    ensures CanonicalFrom(word + rest, afterRun) == MapSeq(word, Lower) + CanonicalFrom(rest, false)
  {
    if word == "" {
      assert word + rest == rest;
    } else {
      assert (word + rest)[1..] == word[1..] + rest && MapSeq(word, Lower) == [Lower(word[0])] + MapSeq(word[1..], Lower);
      WordFirst(word[1..], rest, false);
    }
  }

  lemma {:induction false} RunIsSkipped(seps: string, rest: string)
    requires seps == "" || IsRun(seps)
    ensures CanonicalFrom(seps + rest, true) == CanonicalFrom(rest, true)
  {
    if seps == "" {
      assert seps + rest == rest;
    } else {
      assert (seps + rest)[1..] == seps[1..] + rest;
      RunIsSkipped(seps[1..], rest);
    }
  }

  /** What normalisation does, run by run: a word without separators is put in small letters, and each run
      of separators becomes one hyphen. */
  lemma CanonicalRuns(word: string, seps: string, rest: string)
    requires IsWord(word) && IsRun(seps) && (rest != "" ==> rest[0] !in {'-', '_', '.'})
    ensures Canonical(word) == Smalls(word)
    ensures Canonical(word + (seps + rest)) == Smalls(word) + ("-" + Canonical(rest))
  {
    forall c ensures Lower(c) == SmallOf(c) { LowerExact(c); }
    assert MapSeq(word, Lower) == Smalls(word);
    WordFirst(word, "", false);
    assert word + "" == word && Smalls(word) + CanonicalFrom("", false) == Smalls(word);
    WordFirst(word, seps + rest, false);
    assert (seps + rest)[1..] == seps[1..] + rest;
    RunIsSkipped(seps[1..], rest);
    assert CanonicalFrom(rest, true) == CanonicalFrom(rest, false);
  }

  /***** Lock files *****/

  predicate IsPackageChar(c: char) {
    IsAlphanumeric(c) || c == '_' || c == '.' || c == '-'
  }

  predicate IsVersionChar(c: char) { !IsSpace(c) && c != ';' }

  lemma PackageCharacters(c: char)
    ensures IsPackageChar(c) <==> IsAlphanumeric(c) || c in {'_', '.', '-'}
    ensures IsVersionChar(c) <==> c !in {' ', '\t', ';'}
  {
  }

  // A pinned package: name==version at the start of the line.
  datatype Pin = Pin(name: string, version: string)

  const PINNED := "=="

  function PinOf(line: string): Option<Pin> { PinAt(SkipSpaces(line)) }

  function PinAt(text: string): Option<Pin> {
    var n := RunLength(text, IsPackageChar);
    var rest := AfterKey(text[n..], PINNED);
    if n == 0 || rest.None? then None
    else
      var v := RunLength(rest.value, IsVersionChar);
      if v == 0 then None else Some(Pin(text[..n], rest.value[..v]))
  }

  // The name, two equals signs, the version, and a rest that the version stops at.
  ghost predicate IsPin(text: string, pin: Pin, rest: string) {
    && pin.name != "" && All(pin.name, IsPackageChar)
    && pin.version != "" && All(pin.version, IsVersionChar) && Stops(rest, IsVersionChar)
    && text == pin.name + (PINNED + (pin.version + rest))
  }

  ghost predicate IsPinLine(line: string, blanks: string, text: string, pin: Pin, rest: string) {
    All(blanks, IsSpace) && line == blanks + text && IsPin(text, pin, rest)
  }

  lemma PinAtIsPin(text: string, pin: Pin) returns (rest: string)
    requires PinAt(text) == Some(pin)
    ensures IsPin(text, pin, rest)
  {
    var n := RunLength(text, IsPackageChar);
    var tail := AfterKey(text[n..], PINNED).value;
    var v := RunLength(tail, IsVersionChar);
    rest := tail[v..];
    assert text == text[..n] + text[n..] && tail == tail[..v] + rest;
  }

  lemma PinIsPinAt(text: string, pin: Pin, rest: string)
    requires IsPin(text, pin, rest)
    ensures PinAt(text) == Some(pin)
  {
    var tail := pin.version + rest;
    RunIsLongest(pin.name, PINNED + tail, IsPackageChar);
    assert (PINNED + tail)[|PINNED|..] == tail;
    RunIsLongest(pin.version, rest, IsVersionChar);
  }

  lemma PinIsWritten(line: string, pin: Pin)
    requires PinOf(line) == Some(pin)
    ensures exists blanks, text, rest :: IsPinLine(line, blanks, text, pin, rest)
  {
    var text := SkipSpaces(line);
    var blanks := SpacesSplit(line);
    var rest := PinAtIsPin(text, pin);
    assert IsPinLine(line, blanks, text, pin, rest);
  }

  lemma WrittenIsPin(line: string, blanks: string, text: string, pin: Pin, rest: string)
    requires IsPinLine(line, blanks, text, pin, rest)
    ensures PinOf(line) == Some(pin)
  {
    SkipsExactly(blanks, text);
    PinIsPinAt(text, pin, rest);
  }

  lemma PinExact(line: string, pin: Pin)
    ensures PinOf(line) == Some(pin) <==> exists blanks, text, rest :: IsPinLine(line, blanks, text, pin, rest)
  {
    if PinOf(line) == Some(pin) { PinIsWritten(line, pin); }
    if blanks, text, rest :| IsPinLine(line, blanks, text, pin, rest) { WrittenIsPin(line, blanks, text, pin, rest); }
  }

  // The pin of a line, under its canonical name.
  function CanonicalPin(line: string): Option<Pin> {
    match PinOf(line)
    case None => None
    case Some(pin) => Some(Pin(Canonical(pin.name), pin.version))
  }

  function Pins(lines: seq<string>): seq<Option<Pin>> { MapSeq(lines, CanonicalPin) }

  // Line i pins the package of this name, and no later line does.
  ghost predicate IsLastPin(pins: seq<Option<Pin>>, name: string, i: nat) {
    && i < |pins| && pins[i].Some? && pins[i].value.name == name
    && forall j :: i < j < |pins| && pins[j].Some? ==> pins[j].value.name != name
  }

  ghost predicate Locks(packages: map<string, string>, pins: seq<Option<Pin>>) {
    && (forall name :: name in packages ==>
          exists i: nat :: IsLastPin(pins, name, i) && packages[name] == pins[i].value.version)
    && (forall i :: 0 <= i < |pins| && pins[i].Some? ==> pins[i].value.name in packages)
  }

  method CollectPins(pins: seq<Option<Pin>>) returns (packages: map<string, string>)
    ensures Locks(packages, pins)
  {
    packages := map[];
    ghost var at: map<string, nat> := map[];
    for i := 0 to |pins|
      invariant at.Keys == packages.Keys
      invariant forall name :: name in at ==>
                  IsLastPin(pins[..i], name, at[name]) && packages[name] == pins[at[name]].value.version
      invariant forall j :: 0 <= j < i && pins[j].Some? ==> pins[j].value.name in at
    {
      if pins[i].Some? {
        packages := packages[pins[i].value.name := pins[i].value.version];
        at := at[pins[i].value.name := i];
      }
    }
    assert pins[..|pins|] == pins;
    forall name | name in packages
      ensures exists i: nat :: IsLastPin(pins, name, i) && packages[name] == pins[i].value.version
    {
      assert IsLastPin(pins, name, at[name]);
    }
  }

  // The line pins this package.
  ghost predicate Pinned(line: string, pin: Pin) { exists blanks, text, rest :: IsPinLine(line, blanks, text, pin, rest) }

  // Line i pins a package of this canonical name at this version, and no later line does.
  ghost predicate LastPinned(lines: seq<string>, name: string, i: nat, version: string) {
    && i < |lines| && (exists pin :: Pinned(lines[i], pin) && Canonical(pin.name) == name && pin.version == version)
    && forall j, pin :: i < j < |lines| && Pinned(lines[j], pin) ==> Canonical(pin.name) != name
  }

  lemma CanonicalPinExact(line: string)
    ensures CanonicalPin(line).Some? <==> exists pin :: Pinned(line, pin)
    ensures forall pin :: Pinned(line, pin) ==> CanonicalPin(line) == Some(Pin(Canonical(pin.name), pin.version))
  {
    forall pin ensures Pinned(line, pin) <==> PinOf(line) == Some(pin) { PinExact(line, pin); }
    if PinOf(line).Some? { assert Pinned(line, PinOf(line).value); }
  }

  lemma LastPinExact(lines: seq<string>, name: string, i: nat)
    requires IsLastPin(Pins(lines), name, i)
    ensures LastPinned(lines, name, i, Pins(lines)[i].value.version)
  {
    CanonicalPinExact(lines[i]);
    var pin :| Pinned(lines[i], pin);
    assert Pins(lines)[i] == CanonicalPin(lines[i]);
    forall j, pin | i < j < |lines| && Pinned(lines[j], pin) ensures Canonical(pin.name) != name {
      CanonicalPinExact(lines[j]);
      assert Pins(lines)[j] == CanonicalPin(lines[j]);
    }
  }

  /** A lock maps exactly the canonical names pinned in it, each to the version of its last pin. */
  method ParseLock(lines: seq<string>) returns (packages: map<string, string>)
    ensures forall name :: name in packages ==> exists i: nat :: LastPinned(lines, name, i, packages[name])
    ensures forall i, pin :: 0 <= i < |lines| && Pinned(lines[i], pin) ==> Canonical(pin.name) in packages
    ensures forall name :: name in packages ==> IsCanonical(name)
  {
    packages := CollectPins(Pins(lines));
    forall name | name in packages
      ensures IsCanonical(name) && exists i: nat :: LastPinned(lines, name, i, packages[name])
    {
      var i: nat :| IsLastPin(Pins(lines), name, i) && packages[name] == Pins(lines)[i].value.version;
      assert Pins(lines)[i] == CanonicalPin(lines[i]);
      CanonicalExact(PinOf(lines[i]).value.name);
      LastPinExact(lines, name, i);
    }
    forall i, pin | 0 <= i < |lines| && Pinned(lines[i], pin) ensures Canonical(pin.name) in packages {
      CanonicalPinExact(lines[i]);
      assert Pins(lines)[i] == CanonicalPin(lines[i]);
    }
  }
}

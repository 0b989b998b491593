/** The operation check of the deployment-migration evidence gate, and which records pass it. */
module MigrationEvidence {
  import opened Common
  import opened DecimalText

  // A JSON field that should be a list; the items are the texts that str() makes of them.
  datatype Versions = NotAList | Items(texts: seq<string>)

  datatype Version = Null | NotText | Text(text: string)

  datatype Evidence = Evidence(
    operation: string, applied: Versions, rolledBack: Versions, adopted: Versions,
    previous: Version, current: Version)

  datatype Field = AppliedVersions | RolledBackVersions | AdoptedVersions | PreviousVersion | CurrentVersion

  datatype Error =
    | MustBeList(field: Field) | MustBeThreeDigits(field: Field) | MustBeUnique(field: Field)
    | MustBeNullOrThreeDigits(field: Field) | OutsideGovernedSet(field: Field)
    | ApplyHasOtherVersions | ApplyNotContiguous | ApplyTransition
    | RollbackOnly | RollbackNotContiguous | RollbackTransition
    | AdoptIncomplete | AdoptTransition | UnknownOperation

  // The errors found, or the exception of `int` on text that is no number.
  datatype Outcome = Errors(errors: seq<Error>) | Raised

  // The texts of the numbers first .. last.
  function Range(first: int, last: int): (texts: seq<string>)
    ensures |texts| == (if last < first then 0 else last - first + 1)
    ensures forall i :: 0 <= i < |texts| ==> texts[i] == Format3(first + i)
  {
    if last < first then []
    else seq(last - first + 1, i requires 0 <= i => Format3(first + i))
  }

  function Predecessor(number: int): Option<string> {
    if number - 1 != 0 then Some(Format3(number - 1)) else None
  }

  ghost predicate HasRepeats(texts: seq<string>) { exists i, j :: 0 <= i < j < |texts| && texts[i] == texts[j] }

  /***** What the gate accepts *****/

  // Level k is the schema after the first k migrations; level 0 is written as null.
  ghost function Level(k: nat): Version { if k == 0 then Null else Text(Format3(k)) }

  // The highest level a record can name: versions have three digits.
  ghost function Top(migrationCount: nat): nat { if migrationCount <= MAX_VERSION then migrationCount else MAX_VERSION }

  // A move between levels a and b names the versions a + 1 .. b.
  ghost function Between(a: nat, b: nat): seq<string> { Range(a + 1, b) }

  ghost predicate Readable(v: Version) { v.Null? || (v.Text? && ThreeDigits(v.text)) }

  // One of the three lists carries versions, the other two are empty lists.
  ghost predicate Only(moved: Versions, other1: Versions, other2: Versions, texts: seq<string>) {
    moved == Items(texts) && other1 == Items([]) && other2 == Items([])
  }

  ghost predicate Move(e: Evidence, a: nat, b: nat, n: nat) {
    && a < b <= Top(n)
    && (match e.operation
        case "apply" =>
          Only(e.applied, e.rolledBack, e.adopted, Between(a, b)) && e.previous == Level(a) && e.current == Level(b)
        case "rollback" =>
          Only(e.rolledBack, e.applied, e.adopted, Reversed(Between(a, b))) && e.previous == Level(b) && e.current == Level(a)
        case _ => false)
  }

  ghost predicate NoOp(e: Evidence) {
    e.operation == "apply" && Only(e.applied, e.rolledBack, e.adopted, []) && e.previous == e.current && Readable(e.previous)
  }

  ghost predicate Adoption(e: Evidence, n: nat, currentVersion: string) {
    && e.operation == "adopt" && n <= MAX_VERSION
    && Only(e.adopted, e.applied, e.rolledBack, Between(0, n))
    && e.previous == Null && e.current == Text(currentVersion) && ThreeDigits(currentVersion)
  }

  ghost predicate Accepted(e: Evidence, n: nat, currentVersion: string) {
    (exists a, b :: Move(e, a, b, n)) || NoOp(e) || Adoption(e, n, currentVersion)
  }

  /***** The check *****/

  // The versions are a contiguous ascending range that leads from lower to upper.
  ghost predicate ClimbsBy(versions: seq<string>, lower: Option<string>, upper: Option<string>)
    requires versions != []
  {
    var first, last := ParseInt(versions[0]), ParseInt(versions[|versions| - 1]);
    && first.Some? && last.Some?
    && versions == Range(first.value, last.value)
    && lower == Predecessor(first.value)
    && upper == Some(versions[|versions| - 1])
  }

  ghost predicate GoodList(v: Versions, n: nat) {
    && v.Items? && !HasRepeats(v.texts)
    && forall i :: 0 <= i < |v.texts| ==> ThreeDigits(v.texts[i]) && v.texts[i] in Range(1, n)
  }

  ghost predicate WellFormed(e: Evidence, n: nat) {
    && GoodList(e.applied, n) && GoodList(e.rolledBack, n) && GoodList(e.adopted, n)
    && Readable(e.previous) && Readable(e.current)
  }

  function TextsOf(v: Versions): seq<string> { if v.Items? then v.texts else [] }

  ghost function TextOf(v: Version): Option<string> { if v.Text? then Some(v.text) else None }

  lemma ReversedTwice<T>(s: seq<T>)
    ensures Reversed(Reversed(s)) == s
  {
  }

  lemma GovernedExact(v: string, n: nat)
    requires ThreeDigits(v)
    ensures v in Range(1, n) <==> 1 <= Value(v) <= Top(n)
  {
    ParseThenFormat(v);
    if v in Range(1, n) {
      var i :| 0 <= i < n && Range(1, n)[i] == v;
      FormatThenParse(1 + i);
      FormatThenParse(1 + i);
    }
    if 1 <= Value(v) <= Top(n) { assert Range(1, n)[Value(v) - 1] == v; }
  }

  lemma BetweenIsGood(a: nat, b: nat, n: nat)
    requires a <= b <= Top(n)
    ensures GoodList(Items(Between(a, b)), n) && GoodList(Items(Reversed(Between(a, b))), n)
  {
    var texts := Between(a, b);
    forall i | 0 <= i < |texts|
      ensures ThreeDigits(texts[i]) && Value(texts[i]) == a + 1 + i && texts[i] in Range(1, n)
    {
      FormatThenParse(a + 1 + i);
      GovernedExact(texts[i], n);
    }
  }

  lemma LevelIsReadable(k: nat)
    requires k <= MAX_VERSION
    ensures Readable(Level(k)) && TextOf(Level(k)) == (if k == 0 then None else Some(Format3(k)))
  {
    FormatThenParse(k);
  }

  lemma BetweenClimbs(a: nat, b: nat)
    requires a < b <= MAX_VERSION
    ensures ClimbsBy(Between(a, b), TextOf(Level(a)), TextOf(Level(b)))
  {
    FormatThenParse(a + 1);
    FormatThenParse(b);
    var versions := Between(a, b);
    assert |versions| == b - a && versions[0] == Format3(a + 1) && versions[b - a - 1] == Format3(b);
  }

  lemma ClimbsBetween(versions: seq<string>, lower: Version, upper: Version, n: nat) returns (a: nat, b: nat)
    requires versions != [] && GoodList(Items(versions), n) && Readable(lower) && Readable(upper)
    requires ClimbsBy(versions, TextOf(lower), TextOf(upper))
    ensures a < b <= Top(n) && versions == Between(a, b) && lower == Level(a) && upper == Level(b)
  {
    var last := versions[|versions| - 1];
    GovernedExact(versions[0], n);
    GovernedExact(last, n);
    a, b := Value(versions[0]) - 1, Value(last);
    ParseThenFormat(last);
  }

  /** Every accepted record passes the field checks. */
  lemma AcceptedIsWellFormed(e: Evidence, n: nat, currentVersion: string)
    requires Accepted(e, n, currentVersion)
    ensures WellFormed(e, n)
  {
    BetweenIsGood(0, 0, n);
    assert Between(0, 0) == [] && Reversed(Between(0, 0)) == [];
    if a, b :| Move(e, a, b, n) {
      BetweenIsGood(a, b, n);
      LevelIsReadable(a);
      LevelIsReadable(b);
    } else if Adoption(e, n, currentVersion) {
      BetweenIsGood(0, n, n);
    }
  }

  lemma ApplyExact(e: Evidence, n: nat)
    requires WellFormed(e, n) && e.operation == "apply" && e.applied.texts != []
    ensures (exists a, b :: Move(e, a, b, n)) <==>
              e.rolledBack == Items([]) && e.adopted == Items([]) &&
              ClimbsBy(e.applied.texts, TextOf(e.previous), TextOf(e.current))
  {
    if a, b :| Move(e, a, b, n) {
      BetweenClimbs(a, b);
    } else if e.rolledBack == Items([]) && e.adopted == Items([]) &&
              ClimbsBy(e.applied.texts, TextOf(e.previous), TextOf(e.current)) {
      var a, b := ClimbsBetween(e.applied.texts, e.previous, e.current, n);
      assert Move(e, a, b, n);
    }
  }

  lemma RollbackExact(e: Evidence, n: nat)
    requires WellFormed(e, n) && e.operation == "rollback" && e.rolledBack.texts != []
    ensures (exists a, b :: Move(e, a, b, n)) <==>
              e.applied == Items([]) && e.adopted == Items([]) &&
              ClimbsBy(Reversed(e.rolledBack.texts), TextOf(e.current), TextOf(e.previous))
  {
    if a, b :| Move(e, a, b, n) {
      ReversedTwice(Between(a, b));
      BetweenClimbs(a, b);
    } else if e.applied == Items([]) && e.adopted == Items([]) &&
              ClimbsBy(Reversed(e.rolledBack.texts), TextOf(e.current), TextOf(e.previous)) {
      RolledBackMoves(e, n);
    }
  }

  lemma RolledBackMoves(e: Evidence, n: nat)
    requires WellFormed(e, n) && e.operation == "rollback" && e.rolledBack.texts != []
    requires e.applied == Items([]) && e.adopted == Items([])
    requires ClimbsBy(Reversed(e.rolledBack.texts), TextOf(e.current), TextOf(e.previous))
    ensures exists a, b :: Move(e, a, b, n)
  {
    var a, b := ClimbsBetween(Reversed(e.rolledBack.texts), e.current, e.previous, n);
    ReversedTwice(e.rolledBack.texts);
    assert Move(e, a, b, n);
  }

  lemma AdoptExact(e: Evidence, n: nat, currentVersion: string)
    requires WellFormed(e, n) && e.operation == "adopt"
    ensures Adoption(e, n, currentVersion) <==>
              e.adopted == Items(Range(1, n)) && e.applied == Items([]) && e.rolledBack == Items([]) &&
              e.previous == Null && e.current == Text(currentVersion)
  {
    if e.adopted == Items(Range(1, n)) && n > MAX_VERSION {
      assert ThreeDigits(Range(1, n)[MAX_VERSION]);
      FormatThenParse(MAX_VERSION + 1);
    }
  }

  // What the branch of the record's operation demands of its fields.
  ghost predicate BranchPasses(e: Evidence, n: nat, currentVersion: string)
    requires e.applied.Items? && e.rolledBack.Items? && e.adopted.Items?
  {
    var applied, rolledBack, adopted := e.applied.texts, e.rolledBack.texts, e.adopted.texts;
    var previous, current := TextOf(e.previous), TextOf(e.current);
    match e.operation
    case "apply" =>
      rolledBack == [] && adopted == [] && if applied == [] then previous == current else ClimbsBy(applied, previous, current)
    case "rollback" =>
      rolledBack != [] && applied == [] && adopted == [] && ClimbsBy(Reversed(rolledBack), current, previous)
    case "adopt" =>
      adopted == Range(1, n) && applied == [] && rolledBack == [] && previous == None && current == Some(currentVersion)
    case _ => false
  }

  lemma AcceptedExact(e: Evidence, n: nat, currentVersion: string)
    ensures Accepted(e, n, currentVersion) <==> WellFormed(e, n) && BranchPasses(e, n, currentVersion)
  {
    if Accepted(e, n, currentVersion) { AcceptedIsWellFormed(e, n, currentVersion); }
    if WellFormed(e, n) {
      match e.operation {
        case "apply" =>
          if e.applied.texts != [] { ApplyExact(e, n); } else { EmptyIsNoMove(e, n); }
        case "rollback" =>
          if e.rolledBack.texts != [] { RollbackExact(e, n); } else { EmptyIsNoMove(e, n); }
        case "adopt" => AdoptExact(e, n, currentVersion);
        case _ =>
      }
    }
  }

  lemma EmptyIsNoMove(e: Evidence, n: nat)
    requires e.applied == Items([]) || e.operation != "apply"
    requires e.rolledBack == Items([]) || e.operation != "rollback"
    ensures !exists a, b :: Move(e, a, b, n)
  {
  }

  /***** What each error means *****/

  // A version field as the check goes on with it: unreadable ones count as null.
  ghost function Seen(v: Version): Option<string> { if Readable(v) then TextOf(v) else None }

  ghost predicate ShapeFault(v: Versions, field: Field, err: Error) {
    var texts := TextsOf(v);
    || (err == MustBeList(field) && v.NotAList?)
    || (err == MustBeThreeDigits(field) && exists i :: 0 <= i < |texts| && !ThreeDigits(texts[i]))
    || (err == MustBeUnique(field) && HasRepeats(texts))
  }

  ghost predicate GovernanceFault(texts: seq<string>, governed: seq<string>, field: Field, err: Error) {
    err == OutsideGovernedSet(field) && exists i :: 0 <= i < |texts| && texts[i] !in governed
  }

  ghost predicate VersionFault(v: Version, field: Field, err: Error) {
    err == MustBeNullOrThreeDigits(field) && !Readable(v)
  }

  // Consecutive numbers, in ascending order.
  ghost predicate Contiguous(texts: seq<string>) { exists a: nat :: CountsFrom(texts, a) }

  ghost predicate CountsFrom(texts: seq<string>, a: nat) { texts == Range(a, a + |texts| - 1) }

  // The first or the last text is no number.
  ghost predicate EndIsNoNumber(texts: seq<string>) {
    texts != [] && (ParseInt(texts[0]).None? || ParseInt(texts[|texts| - 1]).None?)
  }

  // The list does not lead from lower to upper; without versions the two must be the same.
  ghost predicate WrongEnds(texts: seq<string>, lower: Option<string>, upper: Option<string>)
    requires !EndIsNoNumber(texts)
  {
    if texts == [] then lower != upper
    else lower != Predecessor(ParseInt(texts[0]).value) || upper != Some(texts[|texts| - 1])
  }

  ghost predicate ApplyFault(applied: seq<string>, rolledBack: seq<string>, adopted: seq<string>,
                             previous: Option<string>, current: Option<string>, err: Error)
    requires !EndIsNoNumber(applied)
  {
    || (err == ApplyHasOtherVersions && (rolledBack != [] || adopted != []))
    || (err == ApplyNotContiguous && applied != [] && !Contiguous(applied))
    || (err == ApplyTransition && WrongEnds(applied, previous, current))
  }

  // A rollback is judged by its list read backwards.
  ghost predicate RollbackFault(applied: seq<string>, rolledBack: seq<string>, adopted: seq<string>,
                                previous: Option<string>, current: Option<string>, err: Error)
    requires !EndIsNoNumber(rolledBack)
  {
    || (err == RollbackOnly && (rolledBack == [] || applied != [] || adopted != []))
    || (err == RollbackNotContiguous && rolledBack != [] && !Contiguous(Reversed(rolledBack)))
    || (err == RollbackTransition && rolledBack != [] && WrongEnds(Reversed(rolledBack), current, previous))
  }

  ghost predicate AdoptFault(applied: seq<string>, rolledBack: seq<string>, adopted: seq<string>,
                       previous: Option<string>, current: Option<string>, n: nat, currentVersion: string, err: Error) {
    || (err == AdoptIncomplete && (adopted != Range(1, n) || applied != [] || rolledBack != []))
    || (err == AdoptTransition && (previous != None || current != Some(currentVersion)))
  }

  ghost predicate FieldFault(e: Evidence, n: nat, err: Error) {
    || ShapeFault(e.applied, AppliedVersions, err)
    || ShapeFault(e.rolledBack, RolledBackVersions, err)
    || ShapeFault(e.adopted, AdoptedVersions, err)
    || VersionFault(e.previous, PreviousVersion, err)
    || VersionFault(e.current, CurrentVersion, err)
    || GovernanceFault(TextsOf(e.applied), Range(1, n), AppliedVersions, err)
    || GovernanceFault(TextsOf(e.rolledBack), Range(1, n), RolledBackVersions, err)
    || GovernanceFault(TextsOf(e.adopted), Range(1, n), AdoptedVersions, err)
  }

  // The check reads the ends of the moved list as numbers.
  ghost predicate CannotRead(e: Evidence) {
    || (e.operation == "apply" && EndIsNoNumber(TextsOf(e.applied)))
    || (e.operation == "rollback" && EndIsNoNumber(TextsOf(e.rolledBack)))
  }

  ghost predicate OperationFault(e: Evidence, n: nat, currentVersion: string, err: Error)
    requires !CannotRead(e)
  {
    var applied, rolledBack, adopted := TextsOf(e.applied), TextsOf(e.rolledBack), TextsOf(e.adopted);
    var previous, current := Seen(e.previous), Seen(e.current);
    match e.operation
    case "apply" => ApplyFault(applied, rolledBack, adopted, previous, current, err)
    case "rollback" => RollbackFault(applied, rolledBack, adopted, previous, current, err)
    case "adopt" => AdoptFault(applied, rolledBack, adopted, previous, current, n, currentVersion, err)
    case _ => err == UnknownOperation
  }

  lemma ContiguousExact(texts: seq<string>)
    requires texts != [] && !EndIsNoNumber(texts)
    ensures Contiguous(texts) <==>
              texts == Range(ParseInt(texts[0]).value, ParseInt(texts[|texts| - 1]).value)
  {
    var last := |texts| - 1;
    if a: nat :| CountsFrom(texts, a) {
      FormatThenParse(a);
      FormatThenParse(a + last);
      assert texts[0] == Format3(a) && texts[last] == Format3(a + last);
    }
    var first := ParseInt(texts[0]).value;
    if texts == Range(first, ParseInt(texts[last]).value) { assert CountsFrom(texts, first); }
  }

  lemma ClimbsExactly(texts: seq<string>, lower: Option<string>, upper: Option<string>)
    requires texts != [] && !EndIsNoNumber(texts)
    ensures ClimbsBy(texts, lower, upper) <==> Contiguous(texts) && !WrongEnds(texts, lower, upper)
  {
    ContiguousExact(texts);
  }

  // Reading a list backwards, its last number comes first.
  lemma DescendsExactly(texts: seq<string>)
    requires texts != [] && !EndIsNoNumber(texts)
    ensures !EndIsNoNumber(Reversed(texts))
    ensures Contiguous(Reversed(texts)) <==>
              texts == Reversed(Range(ParseInt(texts[|texts| - 1]).value, ParseInt(texts[0]).value))
  {
    ContiguousExact(Reversed(texts));
    ReversedTwice(texts);
    ReversedTwice(Range(ParseInt(texts[|texts| - 1]).value, ParseInt(texts[0]).value));
  }

  /***** The check, step by step *****/

  method VersionList(value: Versions, field: Field) returns (versions: seq<string>, errors: seq<Error>)
    ensures versions == TextsOf(value)
    ensures errors == [] <==>
              value.Items? && !HasRepeats(versions) && forall i :: 0 <= i < |versions| ==> ThreeDigits(versions[i])
    ensures forall err :: err in errors <==> ShapeFault(value, field, err)
  {
    if value.NotAList? { return [], [MustBeList(field)]; }
    versions, errors := value.texts, [];
    if exists i :: 0 <= i < |versions| && !ThreeDigits(versions[i]) { errors := errors + [MustBeThreeDigits(field)]; }
    DistinctSize(versions);
    if |set v | v in versions| != |versions| { errors := errors + [MustBeUnique(field)]; }
  }

  method OptionalVersion(value: Version, field: Field) returns (version: Option<string>, errors: seq<Error>)
    ensures version == Seen(value)
    ensures errors == [] <==> Readable(value)
    ensures forall err :: err in errors <==> VersionFault(value, field, err)
  {
    if value.Null? { return None, []; }
    if !(value.Text? && ThreeDigits(value.text)) { return None, [MustBeNullOrThreeDigits(field)]; }
    return Some(value.text), [];
  }

  // Looks for a version outside the governed set; one error per field.
  method UngovernedVersions(versions: seq<string>, governed: seq<string>, field: Field) returns (errors: seq<Error>)
    ensures errors == [] <==> forall i :: 0 <= i < |versions| ==> versions[i] in governed
    ensures forall err :: err in errors <==> GovernanceFault(versions, governed, field, err)
  {
    errors := [];
    for i := 0 to |versions|
      invariant errors == []
      invariant forall j :: 0 <= j < i ==> versions[j] in governed
    {
      if versions[i] !in governed { return [OutsideGovernedSet(field)]; }
    }
  }

  method CheckApply(applied: seq<string>, rolledBack: seq<string>, adopted: seq<string>,
                    previous: Option<string>, current: Option<string>) returns (outcome: Outcome)
    ensures outcome == Errors([]) <==>
              && rolledBack == [] && adopted == []
              && if applied == [] then previous == current else ClimbsBy(applied, previous, current)
    ensures outcome.Raised? <==> EndIsNoNumber(applied)
    ensures outcome.Errors? ==>
              forall err :: err in outcome.errors <==> ApplyFault(applied, rolledBack, adopted, previous, current, err)
  {
    var errors := [];
    if rolledBack != [] || adopted != [] { errors := errors + [ApplyHasOtherVersions]; }
    var expectedPrevious, expectedCurrent := current, previous;
    if applied != [] {
      var first, last := ParseInt(applied[0]), ParseInt(applied[|applied| - 1]);
      if first.None? || last.None? { return Raised; }
      ContiguousExact(applied);
      ClimbsExactly(applied, previous, current);
      if applied != Range(first.value, last.value) { errors := errors + [ApplyNotContiguous]; }
      expectedPrevious, expectedCurrent := Predecessor(first.value), Some(applied[|applied| - 1]);
    }
    if previous != expectedPrevious || current != expectedCurrent { errors := errors + [ApplyTransition]; }
    outcome := Errors(errors);
  }

  // The checks of a rollback list against its ends.
  method CheckDescent(rolledBack: seq<string>, previous: Option<string>, current: Option<string>) returns (outcome: Outcome)
    requires rolledBack != []
    ensures outcome == Errors([]) <==> ClimbsBy(Reversed(rolledBack), current, previous)
    ensures outcome.Raised? <==> EndIsNoNumber(rolledBack)
    ensures outcome.Errors? ==>
              forall err :: err in outcome.errors <==>
                || (err == RollbackNotContiguous && !Contiguous(Reversed(rolledBack)))
                || (err == RollbackTransition && WrongEnds(Reversed(rolledBack), current, previous))
  {
    var errors := [];
    var first, last := ParseInt(rolledBack[|rolledBack| - 1]), ParseInt(rolledBack[0]);
    if first.None? || last.None? { return Raised; }
    DescendsExactly(rolledBack);
    ClimbsExactly(Reversed(rolledBack), current, previous);
    if rolledBack != Reversed(Range(first.value, last.value)) { errors := errors + [RollbackNotContiguous]; }
    if previous != Some(rolledBack[0]) || current != Predecessor(first.value) { errors := errors + [RollbackTransition]; }
    outcome := Errors(errors);
  }

  method CheckRollback(applied: seq<string>, rolledBack: seq<string>, adopted: seq<string>,
                       previous: Option<string>, current: Option<string>) returns (outcome: Outcome)
    ensures outcome == Errors([]) <==>
              rolledBack != [] && applied == [] && adopted == [] && ClimbsBy(Reversed(rolledBack), current, previous)
    ensures outcome.Raised? <==> EndIsNoNumber(rolledBack)
    ensures outcome.Errors? ==>
              forall err :: err in outcome.errors <==> RollbackFault(applied, rolledBack, adopted, previous, current, err)
  {
    var errors := if rolledBack == [] || applied != [] || adopted != [] then [RollbackOnly] else [];
    if rolledBack == [] { return Errors(errors); }
    outcome := CheckDescent(rolledBack, previous, current);
    if outcome.Errors? { outcome := Errors(errors + outcome.errors); }
  }

  method CheckAdopt(applied: seq<string>, rolledBack: seq<string>, adopted: seq<string>,
                    previous: Option<string>, current: Option<string>, n: nat, currentVersion: string)
      returns (errors: seq<Error>)
    ensures errors == [] <==>
              adopted == Range(1, n) && applied == [] && rolledBack == [] && previous == None && current == Some(currentVersion)
    ensures forall err :: err in errors <==>
              AdoptFault(applied, rolledBack, adopted, previous, current, n, currentVersion, err)
  {
    errors := [];
    if adopted != Range(1, n) || applied != [] || rolledBack != [] { errors := errors + [AdoptIncomplete]; }
    if previous != None || current != Some(currentVersion) { errors := errors + [AdoptTransition]; }
  }

  // The checks that do not depend on the operation.
  method CheckFields(e: Evidence, n: nat)
      returns (previous: Option<string>, current: Option<string>, errors: seq<Error>)
    ensures previous == Seen(e.previous) && current == Seen(e.current)
    ensures errors == [] <==> WellFormed(e, n)
    ensures forall err :: err in errors <==> FieldFault(e, n, err)
  {
    var applied, errors1 := VersionList(e.applied, AppliedVersions);
    var rolledBack, errors2 := VersionList(e.rolledBack, RolledBackVersions);
    var adopted, errors3 := VersionList(e.adopted, AdoptedVersions);
    var errors4, errors5;
    previous, errors4 := OptionalVersion(e.previous, PreviousVersion);
    current, errors5 := OptionalVersion(e.current, CurrentVersion);
    var governed := Range(1, n);
    var errors6 := UngovernedVersions(applied, governed, AppliedVersions);
    var errors7 := UngovernedVersions(rolledBack, governed, RolledBackVersions);
    var errors8 := UngovernedVersions(adopted, governed, AdoptedVersions);
    errors := errors1 + errors2 + errors3 + errors4 + errors5 + errors6 + errors7 + errors8;
  }

  // The branch of the record's operation.
  method CheckOperation(e: Evidence, previous: Option<string>, current: Option<string>, n: nat, currentVersion: string)
      returns (outcome: Outcome)
    requires previous == Seen(e.previous) && current == Seen(e.current)
    ensures WellFormed(e, n) ==> (outcome == Errors([]) <==> BranchPasses(e, n, currentVersion))
    ensures outcome.Raised? <==> CannotRead(e)
    ensures outcome.Errors? ==> forall err :: err in outcome.errors <==> OperationFault(e, n, currentVersion, err)
  {
    var applied, rolledBack, adopted := TextsOf(e.applied), TextsOf(e.rolledBack), TextsOf(e.adopted);
    match e.operation {
      case "apply" => outcome := CheckApply(applied, rolledBack, adopted, previous, current);
      case "rollback" => outcome := CheckRollback(applied, rolledBack, adopted, previous, current);
      case "adopt" =>
        var errors := CheckAdopt(applied, rolledBack, adopted, previous, current, n, currentVersion);
        outcome := Errors(errors);
      case _ => outcome := Errors([UnknownOperation]);
    }
  }

  /** The gate finds no error exactly for contiguous moves between governed levels, for an apply
      record without versions that stays where it is, and for the adoption of the whole set; it fails
      to read exactly the moves whose ends are no numbers; and each error it lists has its meaning. */
  method ValidateOperation(e: Evidence, n: nat, currentVersion: string) returns (outcome: Outcome)
    ensures outcome == Errors([]) <==> Accepted(e, n, currentVersion)
    ensures outcome.Raised? <==> CannotRead(e)
    ensures outcome.Errors? ==>
              forall err :: err in outcome.errors <==> FieldFault(e, n, err) || OperationFault(e, n, currentVersion, err)
  {
    var previous, current, errors := CheckFields(e, n);
    var found := CheckOperation(e, previous, current, n, currentVersion);
    AcceptedExact(e, n, currentVersion);
    outcome := if found.Raised? then Raised else Errors(errors + found.errors);
  }
}

/** Accepted records as steps of the schema level, and rollback as the inverse of apply. */
module MigrationReplay {
  import opened Common
  import opened DecimalText
  import opened MigrationEvidence

  // Each record starts where the one before it ended.
  ghost predicate Chained(log: seq<Evidence>, start: Version) {
    log == [] || (log[0].previous == start && Chained(log[1..], log[0].current))
  }

  ghost function Final(log: seq<Evidence>, start: Version): Version {
    if log == [] then start else Final(log[1..], log[0].current)
  }

  ghost function Moved(v: Versions): nat { if v.Items? then |v.texts| else 0 }

  ghost function Climb(log: seq<Evidence>): int {
    if log == [] then 0
    else Moved(log[0].applied) + Moved(log[0].adopted) - Moved(log[0].rolledBack) + Climb(log[1..])
  }

  ghost predicate AllAccepted(log: seq<Evidence>, n: nat) {
    forall i :: 0 <= i < |log| ==> Accepted(log[i], n, Format3(n))
  }

  ghost predicate IsLevel(v: Version, n: nat) { v == Null || (v.Text? && ThreeDigits(v.text) && 1 <= Value(v.text) <= Top(n)) }

  ghost function LevelOf(v: Version): nat
    requires v == Null || (v.Text? && IsDigits(v.text))
  {
    if v.Null? then 0 else Value(v.text)
  }

  lemma LevelsExact(v: Version, k: nat, n: nat)
    ensures k <= Top(n) ==> IsLevel(Level(k), n) && LevelOf(Level(k)) == k
    ensures IsLevel(v, n) ==> v == Level(LevelOf(v)) && LevelOf(v) <= Top(n)
  {
    if k <= Top(n) { FormatThenParse(k); }
    if IsLevel(v, n) && v.Text? { ParseThenFormat(v.text); }
  }

  /** One accepted record that starts at a governed level ends at one, and its version lists say how far it went. */
  lemma StepReplays(e: Evidence, n: nat)
    requires 1 <= n && Accepted(e, n, Format3(n)) && IsLevel(e.previous, n)
    ensures IsLevel(e.current, n)
    ensures LevelOf(e.current) == LevelOf(e.previous) + Moved(e.applied) + Moved(e.adopted) - Moved(e.rolledBack)
  {
    if a, b :| Move(e, a, b, n) {
      LevelsExact(e.current, a, n);
      LevelsExact(e.current, b, n);
    } else if Adoption(e, n, Format3(n)) {
      LevelsExact(e.current, n, n);
    }
  }

  // The log moves on governed levels only.
  ghost predicate Governed(log: seq<Evidence>, n: nat) {
    forall i :: 0 <= i < |log| ==> IsLevel(log[i].previous, n) && IsLevel(log[i].current, n)
  }

  /** Replay: a chained log of accepted records that starts at a governed level stays on governed
      levels and ends at start + applied + adopted - rolled back. */
  lemma {:induction false} LogReplays(log: seq<Evidence>, n: nat, start: Version)
    requires 1 <= n && AllAccepted(log, n) && Chained(log, start) && IsLevel(start, n)
    ensures IsLevel(Final(log, start), n)
    ensures LevelOf(Final(log, start)) == LevelOf(start) + Climb(log)
    ensures Governed(log, n)
  {
    if log != [] {
      StepReplays(log[0], n);
      LogReplays(log[1..], n, log[0].current);
    }
  }

  /***** Records that name levels outside the governed set *****/

  /** An apply record without versions is accepted at any three-digit version, governed or not. */
  lemma EmptyApplyNamesAnyVersion()
    ensures var e := Evidence("apply", Items([]), Items([]), Items([]), Text("999"), Text("999"));
            Accepted(e, 32, "032") && !IsLevel(e.current, 32)
  {
  }

  /** Only such a record can: an accepted record stays on governed levels exactly when it carries a
      version or names a governed level as its previous one. */
  lemma GovernedExactly(e: Evidence, n: nat)
    requires 1 <= n && Accepted(e, n, Format3(n))
    ensures IsLevel(e.previous, n) && IsLevel(e.current, n) <==>
              Moved(e.applied) + Moved(e.rolledBack) + Moved(e.adopted) > 0 || IsLevel(e.previous, n)
  {
    if a, b :| Move(e, a, b, n) {
      LevelsExact(e.current, a, n);
      LevelsExact(e.current, b, n);
    } else if Adoption(e, n, Format3(n)) {
      LevelsExact(e.current, n, n);
    }
  }

  /***** Rollback undoes apply *****/

  // The record that undoes e: endpoints swapped, version list moved to the other field and reversed.
  ghost function Undo(e: Evidence): Evidence
    requires e.applied.Items? && e.rolledBack.Items?
  {
    Evidence(if e.operation == "apply" then "rollback" else "apply",
             Items(Reversed(e.rolledBack.texts)), Items(Reversed(e.applied.texts)), e.adopted, e.current, e.previous)
  }

  lemma UndoMoves(e: Evidence, n: nat, a: nat, b: nat)
    requires e.applied.Items? && e.rolledBack.Items?
    requires Move(e, a, b, n)
    ensures Move(Undo(e), a, b, n)
  {
  }

  ghost predicate Undoable(e: Evidence) {
    && (e.operation == "apply" || e.operation == "rollback")
    && e.applied.Items? && e.rolledBack.Items? && (e.applied.texts != [] || e.rolledBack.texts != [])
  }

  lemma UndoTwice(e: Evidence)
    requires Undoable(e)
    ensures Undoable(Undo(e)) && Undo(Undo(e)) == e
  {
    ReversedTwice(e.applied.texts);
    ReversedTwice(e.rolledBack.texts);
  }

  lemma UndoKeepsAcceptance(e: Evidence, n: nat, currentVersion: string)
    requires Undoable(e) && Accepted(e, n, currentVersion)
    ensures Accepted(Undo(e), n, currentVersion)
  {
    var a, b :| Move(e, a, b, n);
    UndoMoves(e, n, a, b);
  }

  /** Duality: the record that undoes a non-empty apply or rollback is accepted exactly when the record
      is, undoing it gives the record back, and the two in a row return to the level they started from. */
  lemma UndoIsDual(e: Evidence, n: nat, currentVersion: string)
    requires Undoable(e)
    ensures Accepted(e, n, currentVersion) <==> Accepted(Undo(e), n, currentVersion)
    ensures Undo(Undo(e)) == e
    ensures Chained([e, Undo(e)], e.previous) && Final([e, Undo(e)], e.previous) == e.previous
  {
    UndoTwice(e);
    if Accepted(e, n, currentVersion) { UndoKeepsAcceptance(e, n, currentVersion); }
    if Accepted(Undo(e), n, currentVersion) { UndoKeepsAcceptance(Undo(e), n, currentVersion); }
    TwoSteps(e, Undo(e));
  }

  lemma TwoSteps(e: Evidence, f: Evidence)
    requires f.previous == e.current
    ensures Chained([e, f], e.previous) && Final([e, f], e.previous) == f.current
  {
    var log := [e, f];
    assert log[1..] == [f] && log[1..][1..] == [];
    assert Final(log, e.previous) == Final(log[1..], e.current) == Final([], f.current);
  }

  /** The predecessor inverts the successor above version 001 and sends 001 to null. */
  lemma PredecessorInverts(k: nat)
    requires 1 <= k <= MAX_VERSION
    ensures ParseInt(Format3(k)) == Some(k)
    ensures k == 1 <==> Predecessor(k) == None
    ensures 1 < k ==> Predecessor(k) == Some(Format3(k - 1)) && ParseInt(Format3(k - 1)) == Some(k - 1)
    ensures k < MAX_VERSION ==> Predecessor(k + 1) == Some(Format3(k))
  {
    FormatThenParse(k);
    FormatThenParse(k - 1);
  }
}

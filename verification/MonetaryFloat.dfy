/** The guard against float conversions of money: which float calls of a module it reports. */
module MonetaryFloat {
  import opened LineText
  import opened MarkerSearch
  import opened SyntaxTree

  const HINTS: seq<string> := [
    "amount", "balance", "cash", "cost", "currency", "fx", "market", "money", "mtm", "nav", "notional", "pnl",
    "price", "rate", "value", "valuation"]

  predicate LikelyMonetary(text: string) { exists h :: 0 <= h < |HINTS| && Contains(Lowered(text), HINTS[h]) }

  // Line numbers start at 1; a number outside the file has no text.
  function LineOf(lines: seq<string>, number: nat): string {
    if 1 <= number <= |lines| then lines[number - 1] else ""
  }

  // A monetary word stands in text, in any capitalisation.
  ghost predicate LooksMonetary(text: string) { exists h :: 0 <= h < |HINTS| && Reads(text, HINTS[h]) }

  lemma LikelyExact(text: string)
    ensures LikelyMonetary(text) <==> LooksMonetary(text)
  {
    forall h | 0 <= h < |HINTS| ensures Contains(Lowered(text), HINTS[h]) <==> Reads(text, HINTS[h]) {
      LoweredReads(text, HINTS[h]);
    }
  }

  // The line of this number, the first line being number 1, looks monetary.
  ghost predicate LineLooksMonetary(lines: seq<string>, number: nat) {
    exists i :: 0 <= i < |lines| && i + 1 == number && LooksMonetary(lines[i])
  }

  ghost predicate Reported(ast: Ast, lines: seq<string>, n: Node) {
    && n in ast.kinds && ast.kinds[n].FloatCall?
    && (LineLooksMonetary(lines, ast.kinds[n].line) || exists name :: EnclosingName(ast, n, name) && LooksMonetary(name))
  }

  lemma LineExact(lines: seq<string>, number: nat)
    ensures LikelyMonetary(LineOf(lines, number)) <==> LineLooksMonetary(lines, number)
  {
    LikelyExact(LineOf(lines, number));
    NothingIsMonetary();
  }

  lemma NothingIsMonetary()
    ensures !LooksMonetary("")
  {
    assert forall h :: 0 <= h < |HINTS| ==> HINTS[h] != "";
  }

  method CheckCall(ast: Ast, ghost depth: map<Node, nat>, parents: map<Node, Node>, lines: seq<string>, n: Node)
      returns (violation: bool)
    requires IsTree(ast, depth) && Links(ast, parents) && n in depth
    ensures violation <==> Reported(ast, lines, n)
  {
    if !ast.kinds[n].FloatCall? { return false; }
    LineExact(lines, ast.kinds[n].line);
    if LikelyMonetary(LineOf(lines, ast.kinds[n].line)) { return true; }
    var name := EnclosingFunctionName(ast, parents, n, depth);
    forall other | EnclosingName(ast, n, other) ensures other == name {
      EnclosingNameIsUnique(ast, depth, n, other, name);
    }
    LikelyExact(name);
    violation := LikelyMonetary(name);
  }

  /** At any nesting depth, a bare float call is reported exactly when its line, or the name of the
      closest function around it, looks monetary. */
  method FloatCallViolations(ast: Ast, lines: seq<string>, ghost depth: map<Node, nat>) returns (violations: set<Node>)
    requires IsTree(ast, depth)
    ensures forall n :: n in violations <==> Reported(ast, lines, n)
  {
    var parents, walked := ParentMap(ast, depth);
    WalkLinks(ast, depth, parents, walked);
    violations := {};
    for i := 0 to |walked|
      invariant forall n :: n in violations <==> n in walked[..i] && Reported(ast, lines, n)
    {
      assert walked[i] in walked;
      assert walked[..i + 1] == walked[..i] + [walked[i]];
      var violation := CheckCall(ast, depth, parents, lines, walked[i]);
      if violation { violations := violations + {walked[i]}; }
    }
    assert walked[..|walked|] == walked;
  }
}

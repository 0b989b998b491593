/** A syntax tree, the parent map built by walking it, and the climb along that map.  Nodes without
    children that are neither functions nor calls, such as expression contexts and operators, may be
    shared: the parser puts one such node under many parents. */
module SyntaxTree {

  type Node = nat

  datatype Kind = FunctionDef(name: string) | FloatCall(line: nat) | OtherNode

  // Nodes are identities; children gives the child nodes of each in order.
  datatype Ast = Ast(root: Node, kinds: map<Node, Kind>, children: map<Node, seq<Node>>)

  ghost predicate IsChild(ast: Ast, p: Node, c: Node) { p in ast.children && c in ast.children[p] }

  // Nodes that cannot be shared: those with children, functions and calls.
  ghost predicate IsInner(ast: Ast, n: Node) {
    && n in ast.children && n in ast.kinds
    && (ast.children[n] != [] || ast.kinds[n] != OtherNode)
  }

  // Every node but the root is a child; an inner node is one exactly once, of a node one level above it.
  ghost predicate IsTree(ast: Ast, depth: map<Node, nat>) {
    && ast.kinds.Keys == ast.children.Keys == depth.Keys
    && ast.root in depth
    && (forall p, c :: IsChild(ast, p, c) ==> c in depth && c != ast.root)
    && (forall p, c :: IsChild(ast, p, c) && IsInner(ast, c) ==> depth[c] == depth[p] + 1)
    && (forall c :: c in depth && c != ast.root ==> exists p :: IsChild(ast, p, c))
    && (forall p, q, c :: IsChild(ast, p, c) && IsChild(ast, q, c) && IsInner(ast, c) ==> p == q)
    && (forall p :: p in ast.children ==> InnerOnce(ast, ast.children[p]))
  }

  // No inner node stands twice in the list.
  ghost predicate InnerOnce(ast: Ast, nodes: seq<Node>) {
    forall i, j :: 0 <= i < j < |nodes| && IsInner(ast, nodes[i]) ==> nodes[i] != nodes[j]
  }

  // A call of two names that share their context node.
  const SHARED := Ast(
    0, map[0 := FloatCall(1), 1 := OtherNode, 2 := OtherNode, 3 := OtherNode],
    map[0 := [1, 2], 1 := [3], 2 := [3], 3 := []])

  lemma SharedChildren(p: Node, c: Node)
    ensures IsChild(SHARED, p, c) <==> (p == 0 && c in {1, 2}) || (p in {1, 2} && c == 3)
  {
    assert p in SHARED.children <==> p in {0, 1, 2, 3};
  }

  /** Such a tree is one here, although a node of it has two parents. */
  lemma SharedContextIsTree()
    ensures IsTree(SHARED, map[0 := 0, 1 := 1, 2 := 1, 3 := 0])
    ensures IsChild(SHARED, 1, 3) && IsChild(SHARED, 2, 3)
  {
    forall p, c ensures IsChild(SHARED, p, c) <==> (p == 0 && c in {1, 2}) || (p in {1, 2} && c == 3) {
      SharedChildren(p, c);
    }
    assert !IsInner(SHARED, 3);
    assert IsChild(SHARED, 0, 1) && IsChild(SHARED, 0, 2) && IsChild(SHARED, 1, 3);
  }

  /***** The walk *****/

  // p is the last node among walked that has c as a child.
  ghost predicate LastParent(ast: Ast, walked: seq<Node>, c: Node, p: Node) {
    exists i :: 0 <= i < |walked| && walked[i] == p && IsChild(ast, p, c) && NoChildAfter(ast, walked, i, c)
  }

  ghost predicate NoChildAfter(ast: Ast, walked: seq<Node>, i: nat, c: Node) {
    forall j :: i < j < |walked| ==> !IsChild(ast, walked[j], c)
  }

  // The map links each child of a walked node to the last of its parents that was walked, and nothing else.
  ghost predicate ParentsOf(ast: Ast, parents: map<Node, Node>, walked: seq<Node>) {
    && (forall c :: c in parents ==> LastParent(ast, walked, c, parents[c]))
    && (forall i, c :: 0 <= i < |walked| && IsChild(ast, walked[i], c) ==> c in parents)
  }

  // The walk's state: queued nodes are children of visited ones, and inner nodes come up once.
  ghost predicate Walking(ast: Ast, done: set<Node>, todo: seq<Node>) {
    && InnerOnce(ast, todo)
    && (forall n :: n in todo ==> n in ast.children && (IsInner(ast, n) ==> n !in done))
    && done <= ast.children.Keys
    && (ast.root in done || ast.root in todo)
    && (forall p, c :: p in done && IsChild(ast, p, c) ==> c in done || c in todo)
    && (forall n :: n in done || n in todo ==> n == ast.root || exists p :: p in done && IsChild(ast, p, n))
  }

  lemma ChildlessStep(ast: Ast, done: set<Node>, todo: seq<Node>)
    requires Walking(ast, done, todo) && todo != [] && ast.children[todo[0]] == []
    ensures Walking(ast, done + {todo[0]}, todo[1..])
  {
    var n, rest := todo[0], todo[1..];
    assert forall m :: m in todo <==> m == n || m in rest;
    assert forall i :: 0 <= i < |rest| ==> rest[i] == todo[i + 1];
    assert IsInner(ast, n) ==> n !in rest;
  }

  // The children of an inner node are not queued yet, the inner ones among them neither queued nor done.
  lemma InnerKidsAreNew(ast: Ast, depth: map<Node, nat>, done: set<Node>, todo: seq<Node>, c: Node)
    requires IsTree(ast, depth) && Walking(ast, done, todo) && todo != []
    requires IsChild(ast, todo[0], c) && IsInner(ast, c)
    ensures c !in done && c !in todo
  {
    assert todo[0] in todo && IsInner(ast, todo[0]);
  }

  lemma ParentStep(ast: Ast, depth: map<Node, nat>, done: set<Node>, todo: seq<Node>)
    requires IsTree(ast, depth) && Walking(ast, done, todo) && todo != [] && ast.children[todo[0]] != []
    ensures Walking(ast, done + {todo[0]}, todo[1..] + ast.children[todo[0]])
  {
    var n, rest := todo[0], todo[1..];
    var kids := ast.children[n];
    var queue := rest + kids;
    assert n in todo;
    assert forall m :: m in todo <==> m == n || m in rest;
    assert forall m :: m in queue <==> m in rest || m in kids;
    forall c | c in kids && IsInner(ast, c) ensures c !in done && c !in todo {
      assert IsChild(ast, n, c);
      InnerKidsAreNew(ast, depth, done, todo, c);
    }
    QueueGrows(ast, todo, kids);
    forall m | m in done + {n} || m in queue
      ensures m == ast.root || exists p :: p in done + {n} && IsChild(ast, p, m)
    {
      if m in kids { assert n in done + {n} && IsChild(ast, n, m); }
    }
  }

  lemma QueueGrows(ast: Ast, todo: seq<Node>, kids: seq<Node>)
    requires todo != [] && InnerOnce(ast, todo) && InnerOnce(ast, kids)
    requires forall c :: c in kids && IsInner(ast, c) ==> c !in todo
    ensures InnerOnce(ast, todo[1..] + kids)
  {
    var queue := todo[1..] + kids;
    forall i, j | 0 <= i < j < |queue| && IsInner(ast, queue[i]) ensures queue[i] != queue[j] {
      if j < |todo| - 1 {
        assert todo[i + 1] != todo[j + 1];
      } else if i < |todo| - 1 {
        assert queue[i] in todo && queue[j] in kids;
      } else {
        assert queue[i] == kids[i - (|todo| - 1)] && queue[j] == kids[j - (|todo| - 1)];
      }
    }
  }

  /** One step of the walk: the queue stays one of children of visited nodes in which inner nodes are new
      and come up once. */
  lemma WalkStep(ast: Ast, depth: map<Node, nat>, done: set<Node>, todo: seq<Node>)
    requires IsTree(ast, depth) && Walking(ast, done, todo) && todo != []
    ensures Walking(ast, done + {todo[0]}, todo[1..] + ast.children[todo[0]])
  {
    assert todo[0] in todo;
    if ast.children[todo[0]] == [] {
      ChildlessStep(ast, done, todo);
      assert todo[1..] + [] == todo[1..];
    } else {
      ParentStep(ast, depth, done, todo);
    }
  }

  // A closed set that holds the root holds every inner node, and so every node.
  lemma {:induction false} InnerReached(ast: Ast, depth: map<Node, nat>, done: set<Node>, n: Node)
    requires IsTree(ast, depth) && Walking(ast, done, []) && IsInner(ast, n)
    ensures n in done
    decreases depth[n]
  {
    if n != ast.root {
      var p :| IsChild(ast, p, n);
      InnerReached(ast, depth, done, p);
    }
  }

  lemma AllReached(ast: Ast, depth: map<Node, nat>, done: set<Node>, n: Node)
    requires IsTree(ast, depth) && Walking(ast, done, []) && n in depth
    ensures n in done
  {
    if n != ast.root {
      var p :| IsChild(ast, p, n);
      InnerReached(ast, depth, done, p);
    }
  }

  method LinkChildren(ast: Ast, parents: map<Node, Node>, n: Node, ghost walked: seq<Node>) returns (more: map<Node, Node>)
    requires n in ast.children && ParentsOf(ast, parents, walked)
    ensures ParentsOf(ast, more, walked + [n])
  {
    more := parents;
    var kids := ast.children[n];
    for i := 0 to |kids|
      invariant forall c :: c in more <==> c in parents || c in kids[..i]
      invariant forall c :: c in kids[..i] ==> more[c] == n
      invariant forall c :: c in parents && c !in kids[..i] ==> more[c] == parents[c]
    {
      assert kids[..i + 1] == kids[..i] + [kids[i]];
      more := more[kids[i] := n];
    }
    assert kids[..|kids|] == kids;
    LinksExtend(ast, parents, more, n, walked);
  }

  lemma LinksExtend(ast: Ast, parents: map<Node, Node>, more: map<Node, Node>, n: Node, walked: seq<Node>)
    requires n in ast.children && ParentsOf(ast, parents, walked)
    requires forall c :: c in more <==> c in parents || c in ast.children[n]
    requires forall c :: c in ast.children[n] ==> more[c] == n
    requires forall c :: c in parents && c !in ast.children[n] ==> more[c] == parents[c]
    ensures ParentsOf(ast, more, walked + [n])
  {
    var longer := walked + [n];
    forall c | c in more ensures LastParent(ast, longer, c, more[c]) {
      if c in ast.children[n] {
        assert longer[|walked|] == n && IsChild(ast, n, c) && NoChildAfter(ast, longer, |walked|, c);
      } else {
        var i :| 0 <= i < |walked| && walked[i] == parents[c] && IsChild(ast, parents[c], c) && NoChildAfter(ast, walked, i, c);
        assert longer[i] == walked[i] && NoChildAfter(ast, longer, i, c);
      }
    }
    forall i, c | 0 <= i < |longer| && IsChild(ast, longer[i], c) ensures c in more {
      if i < |walked| { assert IsChild(ast, walked[i], c); }
    }
  }

  // The inner nodes that are still to be visited.
  ghost function InnerLeft(ast: Ast, done: set<Node>): set<Node> {
    set n | n in ast.children && IsInner(ast, n) && n !in done
  }

  /** The walk visits every node, and maps each child to the last of its parents that it visits, which is
      the only one unless the child is shared. */
  method ParentMap(ast: Ast, ghost depth: map<Node, nat>) returns (parents: map<Node, Node>, walked: seq<Node>)
    requires IsTree(ast, depth)
    ensures ParentsOf(ast, parents, walked)
    ensures forall n :: n in walked <==> n in ast.children
  {
    parents, walked := map[], [];
    var todo := [ast.root];
    ghost var done: set<Node> := {};
    while todo != []
      invariant Walking(ast, done, todo) && ParentsOf(ast, parents, walked)
      invariant forall n :: n in walked <==> n in done
      decreases InnerLeft(ast, done), |todo|
    {
      var n := todo[0];
      assert n in todo;
      WalkStep(ast, depth, done, todo);
      VisitShrinks(ast, done, n);
      parents := LinkChildren(ast, parents, n, walked);
      todo := todo[1..] + ast.children[n];
      walked := walked + [n];
      done := done + {n};
    }
    WalkEnds(ast, depth, done);
  }

  lemma VisitShrinks(ast: Ast, done: set<Node>, n: Node)
    requires n in ast.children && n in ast.kinds && (IsInner(ast, n) ==> n !in done)
    ensures if ast.children[n] != [] then InnerLeft(ast, done + {n}) < InnerLeft(ast, done)
            else InnerLeft(ast, done + {n}) <= InnerLeft(ast, done)
  {
    assert IsInner(ast, n) ==> n in InnerLeft(ast, done);
  }

  lemma WalkEnds(ast: Ast, depth: map<Node, nat>, done: set<Node>)
    requires IsTree(ast, depth) && Walking(ast, done, [])
    ensures done == ast.children.Keys
  {
    forall n | n in ast.children ensures n in done { AllReached(ast, depth, done, n); }
  }

  /***** The climb *****/

  // chain leads from node upwards, parent by parent.
  ghost predicate Climbs(ast: Ast, node: Node, chain: seq<Node>) {
    && chain != [] && chain[0] == node
    && forall i :: 0 <= i < |chain| - 1 ==> IsChild(ast, chain[i + 1], chain[i])
  }

  ghost predicate IsFunction(ast: Ast, n: Node) { n in ast.kinds && ast.kinds[n].FunctionDef? }

  // No function is among the first n nodes of the chain, its first node aside.
  ghost predicate NoFunction(ast: Ast, chain: seq<Node>, n: nat) {
    forall i :: 0 < i < n && i < |chain| ==> !IsFunction(ast, chain[i])
  }

  // chain leads from node up to a function of this name, past none other.
  ghost predicate LeadsTo(ast: Ast, node: Node, chain: seq<Node>, name: string) {
    && Climbs(ast, node, chain) && |chain| > 1
    && NoFunction(ast, chain, |chain| - 1)
    && chain[|chain| - 1] in ast.kinds && ast.kinds[chain[|chain| - 1]] == FunctionDef(name)
  }

  // name is that of the closest function above node.
  ghost predicate Nearest(ast: Ast, node: Node, name: string) { exists chain :: LeadsTo(ast, node, chain, name) }

  ghost predicate LeadsOut(ast: Ast, node: Node, chain: seq<Node>) {
    Climbs(ast, node, chain) && chain[|chain| - 1] == ast.root && NoFunction(ast, chain, |chain|)
  }

  ghost predicate NoneAbove(ast: Ast, node: Node) { exists chain :: LeadsOut(ast, node, chain) }

  // The name the climb returns: the closest function's, or empty at module level.
  ghost predicate EnclosingName(ast: Ast, node: Node, name: string) {
    Nearest(ast, node, name) || (NoneAbove(ast, node) && name == "")
  }

  // Every node but the root is linked to a parent of its.
  ghost predicate Links(ast: Ast, parents: map<Node, Node>) {
    && (forall c :: c in parents ==> IsChild(ast, parents[c], c))
    && (forall c :: c in ast.children && c != ast.root ==> c in parents)
  }

  lemma WalkLinks(ast: Ast, depth: map<Node, nat>, parents: map<Node, Node>, walked: seq<Node>)
    requires IsTree(ast, depth) && ParentsOf(ast, parents, walked)
    requires forall n :: n in walked <==> n in ast.children
    ensures Links(ast, parents)
  {
    forall c | c in ast.children && c != ast.root ensures c in parents {
      var p :| IsChild(ast, p, c);
      assert p in walked;
    }
  }

  /** The climb returns the name of the closest function ancestor, or the empty text when there is none. */
  method EnclosingFunctionName(ast: Ast, parents: map<Node, Node>, node: Node, ghost depth: map<Node, nat>)
      returns (name: string)
    requires IsTree(ast, depth) && Links(ast, parents) && node in depth
    ensures EnclosingName(ast, node, name)
  {
    ghost var chain := [node];
    var at := node;
    while at in parents
      invariant at in depth && Climbs(ast, node, chain) && chain[|chain| - 1] == at
      invariant NoFunction(ast, chain, |chain|)
      decreases !IsInner(ast, at), depth[at]
    {
      var parent := parents[at];
      assert IsChild(ast, parent, at);
      chain := chain + [parent];
      if ast.kinds[parent].FunctionDef? {
        name := ast.kinds[parent].name;
        assert LeadsTo(ast, node, chain, name);
        return;
      }
      at := parent;
    }
    name := "";
    assert at == ast.root;
    assert LeadsOut(ast, node, chain);
  }

  lemma {:induction false} ChainsAgree(ast: Ast, depth: map<Node, nat>, node: Node, a: seq<Node>, b: seq<Node>, i: nat)
    requires IsTree(ast, depth) && IsInner(ast, node)
    requires Climbs(ast, node, a) && Climbs(ast, node, b) && i < |a| && i < |b|
    ensures a[i] == b[i] && IsInner(ast, a[i])
  {
    if i > 0 {
      ChainsAgree(ast, depth, node, a, b, i - 1);
      assert IsChild(ast, a[i - 1 + 1], a[i - 1]) && IsChild(ast, b[i - 1 + 1], b[i - 1]);
    }
  }

  /** A node that is not shared has one such name: it does not depend on how the climb is made. */
  lemma EnclosingNameIsUnique(ast: Ast, depth: map<Node, nat>, node: Node, a: string, b: string)
    requires IsTree(ast, depth) && IsInner(ast, node)
    requires EnclosingName(ast, node, a) && EnclosingName(ast, node, b)
    ensures a == b
  {
    if Nearest(ast, node, a) && Nearest(ast, node, b) {
      NearestIsUnique(ast, depth, node, a, b);
    } else if Nearest(ast, node, a) {
      NearestExcludesNone(ast, depth, node, a);
    } else if Nearest(ast, node, b) {
      NearestExcludesNone(ast, depth, node, b);
    }
  }

  lemma NearestIsUnique(ast: Ast, depth: map<Node, nat>, node: Node, a: string, b: string)
    requires IsTree(ast, depth) && IsInner(ast, node) && Nearest(ast, node, a) && Nearest(ast, node, b)
    ensures a == b
  {
    var x :| LeadsTo(ast, node, x, a);
    var y :| LeadsTo(ast, node, y, b);
    ChainsAgree(ast, depth, node, x, y, if |x| <= |y| then |x| - 1 else |y| - 1);
  }

  lemma NearestExcludesNone(ast: Ast, depth: map<Node, nat>, node: Node, a: string)
    requires IsTree(ast, depth) && IsInner(ast, node) && Nearest(ast, node, a)
    ensures !NoneAbove(ast, node)
  {
    var x :| LeadsTo(ast, node, x, a);
    forall i | 0 <= i < |x| - 1 ensures x[i] != ast.root { assert IsChild(ast, x[i + 1], x[i]); }
    forall y ensures !LeadsOut(ast, node, y) {
      if LeadsOut(ast, node, y) { ChainsAgree(ast, depth, node, x, y, if |x| <= |y| then |x| - 1 else |y| - 1); }
    }
  }
}

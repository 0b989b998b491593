/** The search of a JSON tree for text that must not leave the pipeline. */
module MarkerSearch {
  import opened LineText
  import opened PackageNames

  datatype Json =
    | Null | Bool(b: bool) | Number(n: int) | Text(text: string)
    | Array(items: seq<Json>) | Object(fields: map<string, Json>)

  // One step of a path: a key of an object, or an index of an array.
  datatype Step = Key(key: string) | Index(index: nat)

  type Path = seq<Step>

  const MARKERS: seq<string> :=
    ["secret", "token", "password", "client_identifying", "portfolio_id", "account_number"]

  function Lowered(text: string): (low: string)
    ensures |low| == |text|
    ensures forall i :: 0 <= i < |text| ==> low[i] == Lower(text[i])
  {
    seq(|text|, i requires 0 <= i < |text| => Lower(text[i]))
  }

  predicate HasMarker(text: string) {
    exists m :: 0 <= m < |MARKERS| && Contains(Lowered(text), MARKERS[m])
  }

  // From character i on, text reads as the fragment when each capital counts as its small letter.
  ghost predicate ReadsAt(text: string, fragment: string, i: int) {
    0 <= i <= |text| - |fragment| && forall k :: 0 <= k < |fragment| ==> SmallOf(text[i + k]) == fragment[k]
  }

  ghost predicate Reads(text: string, fragment: string) { exists i :: ReadsAt(text, fragment, i) }

  lemma LoweredAt(text: string, fragment: string, i: int)
    ensures At(Lowered(text), fragment, i) <==> ReadsAt(text, fragment, i)
  {
    var low := Lowered(text);
    if 0 <= i <= |text| - |fragment| {
      var part := low[i..i + |fragment|];
      forall k | 0 <= k < |fragment| ensures part[k] == SmallOf(text[i + k]) { LowerExact(text[i + k]); }
    }
  }

  /** Searching the lowered text is searching the text in any capitalisation. */
  lemma LoweredReads(text: string, fragment: string)
    ensures Contains(Lowered(text), fragment) <==> Reads(text, fragment)
  {
    forall i ensures At(Lowered(text), fragment, i) <==> ReadsAt(text, fragment, i) { LoweredAt(text, fragment, i); }
  }

  /** A text has a marker exactly when one of them stands in it, in any capitalisation. */
  lemma MarkerExact(text: string)
    ensures HasMarker(text) <==> exists m :: 0 <= m < |MARKERS| && Reads(text, MARKERS[m])
  {
    forall m | 0 <= m < |MARKERS| ensures Contains(Lowered(text), MARKERS[m]) <==> Reads(text, MARKERS[m]) {
      LoweredReads(text, MARKERS[m]);
    }
  }

  // From root, path leads to a text with a marker, or to a value under a key with one.
  ghost predicate Marked(root: Json, path: Path)
    decreases root
  {
    match root
    case Text(text) => path == [] && HasMarker(text)
    case Array(items) =>
      && path != [] && path[0].Index? && path[0].index < |items|
      && Marked(items[path[0].index], path[1..])
    case Object(fields) =>
      && path != [] && path[0].Key? && path[0].key in fields
      && ((|path| == 1 && HasMarker(path[0].key)) || Marked(fields[path[0].key], path[1..]))
    case _ => false
  }

  // No key and no text at any depth has a marker.
  ghost predicate Clean(root: Json)
    decreases root
  {
    match root
    case Text(text) => !HasMarker(text)
    case Array(items) => forall i :: 0 <= i < |items| ==> Clean(items[i])
    case Object(fields) => forall k :: k in fields ==> !HasMarker(k) && Clean(fields[k])
    case _ => true
  }

  lemma {:induction false} MarkedIsNotClean(root: Json, path: Path)
    requires Marked(root, path)
    ensures !Clean(root)
    decreases root
  {
    match root {
      case Array(items) => MarkedIsNotClean(items[path[0].index], path[1..]);
      case Object(fields) =>
        if !HasMarker(path[0].key) { MarkedIsNotClean(fields[path[0].key], path[1..]); }
      case _ =>
    }
  }

  lemma {:induction false} NotCleanIsMarked(root: Json) returns (path: Path)
    requires !Clean(root)
    ensures Marked(root, path)
    decreases root
  {
    match root {
      case Array(items) =>
        var i :| 0 <= i < |items| && !Clean(items[i]);
        var rest := NotCleanIsMarked(items[i]);
        path := [Index(i)] + rest;
        assert path[1..] == rest;
      case Object(fields) =>
        var k :| k in fields && !(!HasMarker(k) && Clean(fields[k]));
        if HasMarker(k) {
          path := [Key(k)];
        } else {
          var rest := NotCleanIsMarked(fields[k]);
          path := [Key(k)] + rest;
          assert path[1..] == rest;
        }
      case _ => path := [];
    }
  }

  // Some place in the tree is marked.
  ghost predicate HasMarked(root: Json) { exists path: Path :: Marked(root, path) }

  /** A tree is clean exactly when no path of it is marked. */
  lemma CleanExactly(root: Json)
    ensures Clean(root) <==> !HasMarked(root)
  {
    if !Clean(root) { var path := NotCleanIsMarked(root); }
    if HasMarked(root) {
      var path: Path :| Marked(root, path);
      MarkedIsNotClean(root, path);
    }
  }

  // findings are the marked paths of root, each below path.
  ghost predicate Finds(findings: seq<Path>, root: Json, path: Path) {
    forall p :: p in findings <==> exists rest: Path :: p == path + rest && Marked(root, rest)
  }

  /** The search names exactly the marked places: it is sound and complete at any depth. */
  method FindForbiddenMarkers(value: Json, path: Path) returns (findings: seq<Path>)
    ensures Finds(findings, value, path)
    decreases value
  {
    findings := [];
    match value {
      case Text(text) =>
        if HasMarker(text) { findings := [path]; }
        assert Marked(value, []) == HasMarker(text);
        assert path + [] == path;
      case Array(items) =>
        for i := 0 to |items|
          invariant forall p :: p in findings <==>
                      exists rest: Path :: p == path + rest && Marked(value, rest) && rest[0].index < i
        {
          var below := FindForbiddenMarkers(items[i], path + [Index(i)]);
          ItemPaths(value, path, i, below);
          findings := findings + below;
        }
      case Object(fields) =>
        var keys := fields.Keys;
        while keys != {}
          invariant keys <= fields.Keys
          invariant forall p :: p in findings <==>
                      exists rest: Path :: p == path + rest && Marked(value, rest) && rest[0].key !in keys
        {
          var k :| k in keys;
          var below := FindForbiddenMarkers(fields[k], path + [Key(k)]);
          FieldPaths(value, path, k, below);
          if HasMarker(k) { findings := findings + [path + [Key(k)]]; }
          findings := findings + below;
          keys := keys - {k};
        }
      case _ =>
    }
  }

  lemma ItemPaths(value: Json, path: Path, i: nat, below: seq<Path>)
    requires value.Array? && i < |value.items| && Finds(below, value.items[i], path + [Index(i)])
    ensures forall p :: p in below <==> exists rest: Path :: p == path + rest && Marked(value, rest) && rest[0] == Index(i)
  {
    forall p ensures p in below <==> exists rest: Path :: p == path + rest && Marked(value, rest) && rest[0] == Index(i) {
      if p in below {
        var rest: Path :| p == path + [Index(i)] + rest && Marked(value.items[i], rest);
        var longer := [Index(i)] + rest;
        assert longer[1..] == rest && p == path + longer;
      }
      if rest: Path :| p == path + rest && Marked(value, rest) && rest[0] == Index(i) {
        assert p == path + [Index(i)] + rest[1..];
      }
    }
  }

  lemma FieldPaths(value: Json, path: Path, k: string, below: seq<Path>)
    requires value.Object? && k in value.fields && Finds(below, value.fields[k], path + [Key(k)])
    ensures forall p :: p in below || (HasMarker(k) && p == path + [Key(k)]) <==>
              exists rest: Path :: p == path + rest && Marked(value, rest) && rest[0] == Key(k)
  {
    forall p
      ensures p in below || (HasMarker(k) && p == path + [Key(k)]) <==>
                exists rest: Path :: p == path + rest && Marked(value, rest) && rest[0] == Key(k)
    {
      if p in below {
        var rest: Path :| p == path + [Key(k)] + rest && Marked(value.fields[k], rest);
        var longer := [Key(k)] + rest;
        assert longer[1..] == rest && p == path + longer;
      }
      if HasMarker(k) { assert Marked(value, [Key(k)]); }
      if rest: Path :| p == path + rest && Marked(value, rest) && rest[0] == Key(k) {
        assert p == path + [Key(k)] + rest[1..];
      }
    }
  }
}

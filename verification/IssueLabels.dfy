/** Status labels of an issue, and the text that carries them from the posture to its gate. */
module IssueLabels {
  import opened Common
  import opened Sorting
  import TextOrder

  const BLOCKED := "status/blocked"
  const UNLABELED := "status/unlabeled"

  const GOVERNED_OPEN: set<string> := {
    "status/blocked", "status/fixed-local", "status/in-progress", "status/merged-main",
    "status/merged-to-main", "status/pr-open", "status/ready", "status/tracker"
  }

  predicate StartsWith(s: string, start: string) { start <= s }

  predicate IsStatusLabel(name: string) { StartsWith(name, "status/") || StartsWith(name, "status:") }

  function Dedupe(s: seq<string>): (r: seq<string>)
    ensures forall x :: x in r <==> x in s
    ensures Distinct(r)
  {
    if s == [] then []
    else if s[0] in s[1..] then Dedupe(s[1..])
    else [s[0]] + Dedupe(s[1..])
  }

  // The status labels of a label list, each once, in text order.
  function StatusLabels(labels: seq<string>): seq<string> {
    SortBy(Dedupe(Filter(labels, IsStatusLabel)), TextOrder.Leq)
  }

  // ",".join
  function Join(labels: seq<string>): string {
    if labels == [] then ""
    else if |labels| == 1 then labels[0]
    else labels[0] + "," + Join(labels[1..])
  }

  // split(",")
  function Split(text: string): (parts: seq<string>)
    ensures parts != []
  {
    if text == "" then [""]
    else
      var rest := Split(text[1..]);
      if text[0] == ',' then [""] + rest else [[text[0]] + rest[0]] + rest[1..]
  }

  function StatusKey(labels: seq<string>): string {
    var status := StatusLabels(labels);
    if status == [] then UNLABELED else Join(status)
  }

  lemma {:induction false} SplitsAtCommas(text: string)
    ensures |Split(text)| == 1 <==> ',' !in text
  {
    if text != "" { SplitsAtCommas(text[1..]); }
  }

  lemma {:induction false} SplitAtFirstComma(head: string, tail: string)
    requires ',' !in head
    ensures Split(head + "," + tail) == [head] + Split(tail)
  {
    var text := head + "," + tail;
    if head == "" {
      assert text[1..] == tail;
    } else {
      SplitAtFirstComma(head[1..], tail);
      assert text[1..] == head[1..] + "," + tail;
      assert head == [head[0]] + head[1..];
    }
  }

  /** Joining and splitting are inverse on labels without a comma, and splitting always joins back. */
  lemma {:induction false} JoinThenSplit(names: seq<string>)
    requires names != [] && forall i :: 0 <= i < |names| ==> ',' !in names[i]
    ensures Split(Join(names)) == names
  {
    if |names| == 1 {
      SplitsAtCommas(names[0]);
      SplitJoinsBack(names[0]);
      assert Split(names[0]) == [Split(names[0])[0]];
    } else {
      SplitAtFirstComma(names[0], Join(names[1..]));
      JoinThenSplit(names[1..]);
    }
  }

  lemma {:induction false} SplitJoinsBack(text: string)
    ensures Join(Split(text)) == text
  {
    if text != "" {
      SplitJoinsBack(text[1..]);
      var rest := Split(text[1..]);
      if text[0] == ',' {
        assert ([""] + rest)[1..] == rest;
      } else if |rest| > 1 {
        assert ([[text[0]] + rest[0]] + rest[1..])[1..] == rest[1..];
      }
    }
  }

  lemma GovernedLabelsAreWhole(name: string)
    requires name in GOVERNED_OPEN
    ensures ',' !in name && IsStatusLabel(name)
  {
  }

  lemma StatusLabelsExact(labels: seq<string>)
    ensures forall l :: l in StatusLabels(labels) <==> l in labels && IsStatusLabel(l)
    ensures Distinct(StatusLabels(labels))
  {
    var deduped := Dedupe(Filter(labels, IsStatusLabel));
    SortPermutes(deduped, TextOrder.Leq);
    DistinctPermutes(deduped, StatusLabels(labels));
  }

  // The status labels, each once and in text order, joined by commas; or that there is none.
  ghost predicate ShowsStatus(status: string, labels: seq<string>) {
    if forall l :: l in labels ==> !("status/" <= l) && !("status:" <= l) then status == "status/unlabeled"
    else exists texts: seq<string> :: texts != [] && ListsStatus(texts, labels) && status == Join(texts)
  }

  ghost predicate ListsStatus(texts: seq<string>, labels: seq<string>) {
    && (forall t :: t in texts <==> t in labels && ("status/" <= t || "status:" <= t))
    && forall i, j :: 0 <= i < j < |texts| ==> TextOrder.Precedes(texts[i], texts[j])
  }

  lemma LabelsSort(labels: seq<string>)
    ensures Sorted(SortBy(labels, TextOrder.Leq), TextOrder.Leq)
  {
    forall a, b, c ensures (TextOrder.Leq(a, b) || TextOrder.Leq(b, a)) &&
                           (TextOrder.Leq(a, b) && TextOrder.Leq(b, c) ==> TextOrder.Leq(a, c)) {
      TextOrder.LeqIsTotal(a, b);
      if TextOrder.Leq(a, b) && TextOrder.Leq(b, c) { TextOrder.LeqIsTransitive(a, b, c); }
    }
    SortSorts(labels, TextOrder.Leq);
  }

  lemma StatusLabelsAreListed(labels: seq<string>)
    ensures ListsStatus(StatusLabels(labels), labels)
  {
    var status := StatusLabels(labels);
    LabelsSort(Dedupe(Filter(labels, IsStatusLabel)));
    StatusLabelsExact(labels);
    forall i, j | 0 <= i < j < |status| ensures TextOrder.Precedes(status[i], status[j]) {
      TextOrder.LessExactly(status[i], status[j]);
    }
  }

  /** The status text of an issue shows its status labels, each once and in text order. */
  lemma StatusKeyShows(labels: seq<string>)
    ensures ShowsStatus(StatusKey(labels), labels)
  {
    var status := StatusLabels(labels);
    StatusLabelsAreListed(labels);
    if status == [] {
      forall l | l in labels ensures !("status/" <= l) && !("status:" <= l) { assert l !in status; }
    } else {
      assert status[0] in status;
    }
  }

  lemma {:induction false} DistinctCount(s: seq<string>, x: string)
    requires Distinct(s)
    ensures multiset(s)[x] <= 1
  {
    if s != [] {
      assert s == [s[0]] + s[1..];
      DistinctCount(s[1..], x);
    }
  }

  lemma DistinctPermutes(s: seq<string>, t: seq<string>)
    requires Distinct(s) && multiset(s) == multiset(t)
    ensures Distinct(t)
  {
    forall i, j | 0 <= i < j < |t| ensures t[i] != t[j] {
      if t[i] == t[j] {
        assert t == t[..i] + [t[i]] + t[i + 1..j] + [t[j]] + t[j + 1..];
        assert multiset(t)[t[i]] >= 2;
        DistinctCount(s, t[i]);
      }
    }
  }

  // The set of status labels among labels is exactly {g}.
  ghost predicate OnlyStatus(labels: seq<string>, g: string) {
    forall l :: l in labels && IsStatusLabel(l) <==> l == g
  }

  lemma OnlyStatusExact(labels: seq<string>, g: string)
    ensures OnlyStatus(labels, g) <==> StatusLabels(labels) == [g]
  {
    StatusLabelsExact(labels);
    var status := StatusLabels(labels);
    assert |status| >= 2 ==> status[0] in status && status[1] in status && status[0] != status[1];
    if OnlyStatus(labels, g) {
      assert g in status;
      assert status[0] in status;
    }
  }

  lemma UnlabeledIsNotGoverned()
    ensures UNLABELED !in GOVERNED_OPEN
  {
  }

  lemma KeyExact(labels: seq<string>)
    ensures var status := StatusLabels(labels);
            |Split(StatusKey(labels))| == 1 && StatusKey(labels) in GOVERNED_OPEN <==>
              |status| == 1 && status[0] in GOVERNED_OPEN
  {
    var status := StatusLabels(labels);
    SplitsAtCommas(StatusKey(labels));
    if status == [] {
      UnlabeledIsNotGoverned();
    } else if |status| == 1 {
      if status[0] in GOVERNED_OPEN { GovernedLabelsAreWhole(status[0]); }
    } else {
    }
  }

  /** Although the labels travel as one comma-joined text, the gate reads a single governed label
      exactly when the set of the issue's status labels is that one label. */
  lemma StatusKeyIsGovernedExactly(labels: seq<string>)
    ensures |Split(StatusKey(labels))| == 1 && StatusKey(labels) in GOVERNED_OPEN <==>
            exists g :: g in GOVERNED_OPEN && OnlyStatus(labels, g)
  {
    KeyExact(labels);
    var status := StatusLabels(labels);
    forall g ensures OnlyStatus(labels, g) <==> status == [g] { OnlyStatusExact(labels, g); }
    if |status| == 1 { assert status == [status[0]]; }
  }
}

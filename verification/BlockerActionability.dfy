/** The source-controlled classification of open blocked issues, and the summary it must cover. */
module BlockerActionability {
  import opened Common
  import opened Sorting
  import opened IssueSnapshots
  import TextOrder

  type Key = (string, int)

  const VALID_ACTIONABILITY: set<string> := {"core_dependency", "external_or_protected_evidence"}

  datatype Classification = Classification(
    repository: string, issueNumber: Number, actionability: string, blockerClass: string, remainingAuthority: string)

  // One entry of the contract file; None stands for an entry whose fields are not of the right kind.
  type RawClassification = Option<Classification>

  datatype BlockedProjection = BlockedProjection(
    key: Key, actionability: string, blockerClass: string, remainingAuthority: string)

  datatype Blocked = Blocked(
    openBlocked: nat, appActionable: nat, byActionability: multiset<string>, byClass: multiset<string>,
    projections: seq<BlockedProjection>)

  ghost predicate Valid(raw: RawClassification) {
    && raw.Some? && '/' in raw.value.repository && raw.value.actionability in VALID_ACTIONABILITY
    && raw.value.blockerClass != "" && raw.value.remainingAuthority != ""
  }

  function ClassificationKey(c: Classification): Key { (c.repository, c.issueNumber.value) }

  // Entry i is the first that is not valid or classifies an issue again, and e says so.
  ghost predicate IsFirstBad(raw: seq<RawClassification>, i: nat, e: Error) {
    && i < |raw| && (forall j :: 0 <= j < i ==> Valid(raw[j]))
    && if Valid(raw[i]) then
         && e == DuplicateClassification(ClassificationKey(raw[i].value))
         && exists j :: 0 <= j < i && ClassificationKey(raw[j].value) == ClassificationKey(raw[i].value)
       else e == MalformedClassification(i)
  }

  ghost predicate SomeIsBad(raw: seq<RawClassification>, e: Error) { exists i: nat :: IsFirstBad(raw, i, e) }

  lemma FirstBad(raw: seq<RawClassification>, i: nat, e: Error)
    requires IsFirstBad(raw, i, e)
    ensures SomeIsBad(raw, e)
  {
  }

  /** The classifications by issue; a second entry for the same issue is refused. */
  method LoadClassifications(raw: seq<RawClassification>) returns (r: Result<map<Key, Classification>, Error>)
    ensures r.Success? <==>
              && (forall i :: 0 <= i < |raw| ==> Valid(raw[i]))
              && (forall i, j :: 0 <= i < j < |raw| ==> ClassificationKey(raw[i].value) != ClassificationKey(raw[j].value))
    ensures r.Success? ==>
              && (forall i :: 0 <= i < |raw| ==>
                    ClassificationKey(raw[i].value) in r.value && r.value[ClassificationKey(raw[i].value)] == raw[i].value)
              && (forall k :: k in r.value ==> exists i :: 0 <= i < |raw| && ClassificationKey(raw[i].value) == k)
    ensures r.Failure? ==> SomeIsBad(raw, r.error)
  {
    var byIssue: map<Key, Classification> := map[];
    for i := 0 to |raw|
      invariant forall j :: 0 <= j < i ==>
                  && Valid(raw[j]) && ClassificationKey(raw[j].value) in byIssue
                  && byIssue[ClassificationKey(raw[j].value)] == raw[j].value
      invariant forall j, k :: 0 <= j < k < i ==> ClassificationKey(raw[j].value) != ClassificationKey(raw[k].value)
      invariant forall k :: k in byIssue ==> exists j :: 0 <= j < i && ClassificationKey(raw[j].value) == k
    {
      if raw[i].None? || '/' !in raw[i].value.repository || raw[i].value.actionability !in VALID_ACTIONABILITY
         || raw[i].value.blockerClass == "" || raw[i].value.remainingAuthority == "" {
        FirstBad(raw, i, MalformedClassification(i));
        return Failure(MalformedClassification(i));
      }
      var key := ClassificationKey(raw[i].value);
      if key in byIssue {
        FirstBad(raw, i, DuplicateClassification(key));
        return Failure(DuplicateClassification(key));
      }
      byIssue := byIssue[key := raw[i].value];
    }
    r := Success(byIssue);
  }

  function Keys(issues: seq<Issue>): (keys: set<Key>)
    ensures forall k :: k in keys <==> HasKey(issues, k)
  {
    set i: nat | i < |issues| :: KeyOf(issues[i])
  }

  // One of the issues has this repository and number.
  ghost predicate HasKey(issues: seq<Issue>, k: Key) {
    exists i :: 0 <= i < |issues| && issues[i].repository == k.0 && issues[i].number.value == k.1
  }

  ghost predicate HasRepository(issues: seq<Issue>, repository: string) {
    exists i :: 0 <= i < |issues| && issues[i].repository == repository
  }

  function Repositories(issues: seq<Issue>): (repositories: set<string>)
    ensures forall r :: r in repositories <==> HasRepository(issues, r)
  {
    set i | i in issues :: i.repository
  }

  method RequireComplete(openBlocked: seq<Issue>, classifications: map<Key, Classification>, scoped: set<string>)
      returns (error: Option<Error>)
    ensures error == None <==>
              && (forall k :: HasKey(openBlocked, k) ==> k in classifications)
              && forall k :: k in classifications && k.0 in scoped ==> HasKey(openBlocked, k)
    ensures error == Some(MissingClassification) <==> exists k :: HasKey(openBlocked, k) && k !in classifications
    ensures error in {None, Some(MissingClassification), Some(StaleClassification)}
  {
    if i :| 0 <= i < |openBlocked| && KeyOf(openBlocked[i]) !in classifications {
      assert HasKey(openBlocked, KeyOf(openBlocked[i]));
      return Some(MissingClassification);
    }
    if exists k :: k in classifications && k.0 in scoped && k !in Keys(openBlocked) {
      return Some(StaleClassification);
    }
    error := None;
  }

  predicate InOrder(a: Issue, b: Issue) {
    if a.repository == b.repository then a.number.value <= b.number.value
    else TextOrder.Leq(a.repository, b.repository)
  }

  lemma InOrderIsOrder()
    ensures Total(InOrder) && Transitive(InOrder)
  {
    forall a, b ensures InOrder(a, b) || InOrder(b, a) {
      TextOrder.LeqIsTotal(a.repository, b.repository);
    }
    forall a, b, c | InOrder(a, b) && InOrder(b, c) ensures InOrder(a, c) {
      if a.repository != b.repository && b.repository != c.repository {
        TextOrder.LeqIsTransitive(a.repository, b.repository, c.repository);
        if a.repository == c.repository { TextOrder.LeqIsAntisymmetric(a.repository, b.repository); }
      }
    }
  }

  // The projections are those of the issues in sorted, each with what its own classification says.
  ghost predicate Lists(projections: seq<BlockedProjection>, sorted: seq<Issue>, classifications: map<Key, Classification>) {
    && |projections| == |sorted|
    && forall i :: 0 <= i < |sorted| ==> Says(projections[i], sorted[i], classifications)
  }

  ghost predicate Says(p: BlockedProjection, issue: Issue, classifications: map<Key, Classification>) {
    var key := (issue.repository, issue.number.value);
    && p.key == key && key in classifications
    && p.actionability == classifications[key].actionability
    && p.blockerClass == classifications[key].blockerClass
    && p.remainingAuthority == classifications[key].remainingAuthority
  }

  ghost function ActionabilitiesOf(projections: seq<BlockedProjection>): (texts: seq<string>)
    ensures |texts| == |projections| && forall i :: 0 <= i < |texts| ==> texts[i] == projections[i].actionability
  {
    MapSeq(projections, (p: BlockedProjection) => p.actionability)
  }

  ghost function ClassesOf(projections: seq<BlockedProjection>): (texts: seq<string>)
    ensures |texts| == |projections| && forall i :: 0 <= i < |texts| ==> texts[i] == projections[i].blockerClass
  {
    MapSeq(projections, (p: BlockedProjection) => p.blockerClass)
  }

  // a comes before b: its repository does, or it is the same and its number is smaller.
  ghost predicate IsBefore(a: Issue, b: Issue) {
    TextOrder.Precedes(a.repository, b.repository) || (a.repository == b.repository && a.number.value < b.number.value)
  }

  ghost predicate ByRepositoryAndNumber(issues: seq<Issue>) {
    forall i, j :: 0 <= i < j < |issues| ==> !IsBefore(issues[j], issues[i])
  }

  lemma SortedByKey(issues: seq<Issue>)
    requires Sorted(issues, InOrder)
    ensures ByRepositoryAndNumber(issues)
  {
    forall i, j | 0 <= i < j < |issues| ensures !IsBefore(issues[j], issues[i]) {
      TextOrder.LessExactly(issues[j].repository, issues[i].repository);
      if TextOrder.Leq(issues[j].repository, issues[i].repository) && issues[i].repository != issues[j].repository {
        TextOrder.LeqIsAntisymmetric(issues[i].repository, issues[j].repository);
      }
    }
  }

  // The views of b are those of the open blocked issues, listed by repository and number.
  ghost predicate Views(b: Blocked, issues: seq<Issue>, classifications: map<Key, Classification>) {
    && b.byActionability == multiset(ActionabilitiesOf(b.projections))
    && b.byClass == multiset(ClassesOf(b.projections))
    && exists sorted ::
         && multiset(sorted) == multiset(Filter(issues, IsOpenBlocked))
         && ByRepositoryAndNumber(sorted)
         && Lists(b.projections, sorted, classifications)
  }

  method CountViews(sorted: seq<Issue>, classifications: map<Key, Classification>)
      returns (byActionability: multiset<string>, byClass: multiset<string>, projections: seq<BlockedProjection>)
    requires forall i :: 0 <= i < |sorted| ==> KeyOf(sorted[i]) in classifications
    ensures Lists(projections, sorted, classifications)
    ensures byActionability == multiset(ActionabilitiesOf(projections))
    ensures byClass == multiset(ClassesOf(projections))
  {
    byActionability, byClass, projections := multiset{}, multiset{}, [];
    for i := 0 to |sorted|
      invariant Lists(projections, sorted[..i], classifications)
      invariant byActionability == multiset(ActionabilitiesOf(projections))
      invariant byClass == multiset(ClassesOf(projections))
    {
      var c := classifications[KeyOf(sorted[i])];
      byActionability := byActionability + multiset{c.actionability};
      byClass := byClass + multiset{c.blockerClass};
      var projection := BlockedProjection(KeyOf(sorted[i]), c.actionability, c.blockerClass, c.remainingAuthority);
      assert ActionabilitiesOf(projections + [projection]) == ActionabilitiesOf(projections) + [c.actionability];
      assert ClassesOf(projections + [projection]) == ClassesOf(projections) + [c.blockerClass];
      projections := projections + [projection];
    }
    assert sorted[..|sorted|] == sorted;
  }

  // The classified keys of the repositories that have an issue are the keys of the open blocked issues.
  ghost predicate Covers(classifications: map<Key, Classification>, issues: seq<Issue>) {
    forall k :: IsBlockedKey(issues, k) <==> k in classifications && HasRepository(issues, k.0)
  }

  // The key of an open issue that carries the blocked label.
  ghost predicate IsBlockedKey(issues: seq<Issue>, k: Key) {
    exists i :: 0 <= i < |issues| && issues[i].repository == k.0 && issues[i].number.value == k.1
                && issues[i].state == Open && "status/blocked" in issues[i].labels
  }

  lemma BlockedKeys(issues: seq<Issue>, k: Key)
    ensures HasKey(Filter(issues, IsOpenBlocked), k) <==> IsBlockedKey(issues, k)
    ensures IsBlockedKey(issues, k) ==> HasRepository(issues, k.0)
  {
    var blocked := Filter(issues, IsOpenBlocked);
    if i :| 0 <= i < |blocked| && blocked[i].repository == k.0 && blocked[i].number.value == k.1 {
      assert blocked[i] in issues;
    }
    if i :| 0 <= i < |issues| && issues[i].repository == k.0 && issues[i].number.value == k.1
            && issues[i].state == Open && "status/blocked" in issues[i].labels {
      assert issues[i] in blocked;
    }
  }

  /** The classification covers exactly the open blocked issues of the repositories in scope, or the
      summary is refused; and its three views of those issues agree in number and content. */
  method BlockedActionability(issues: seq<Issue>, classifications: map<Key, Classification>)
      returns (r: Result<Blocked, Error>)
    ensures r.Success? <==> Covers(classifications, issues)
    ensures r.Success? ==>
              && r.value.openBlocked == |Filter(issues, IsOpenBlocked)| && r.value.appActionable == 0
              && |r.value.byActionability| == |r.value.byClass| == |r.value.projections| == r.value.openBlocked
              && Views(r.value, issues, classifications)
  {
    var openBlocked := Filter(issues, IsOpenBlocked);
    var scoped := Repositories(issues);
    forall k { BlockedKeys(issues, k); }
    var incomplete := RequireComplete(openBlocked, classifications, scoped);
    if incomplete.Some? { return Failure(incomplete.value); }
    var sorted := SortBy(openBlocked, InOrder);
    SortPermutes(openBlocked, InOrder);
    InOrderIsOrder();
    SortSorts(openBlocked, InOrder);
    SortedByKey(sorted);
    forall i | 0 <= i < |sorted| ensures KeyOf(sorted[i]) in classifications {
      assert sorted[i] in openBlocked;
      assert HasKey(openBlocked, KeyOf(sorted[i]));
    }
    var byActionability, byClass, projections := CountViews(sorted, classifications);
    r := Success(Blocked(|openBlocked|, 0, byActionability, byClass, projections));
  }
}

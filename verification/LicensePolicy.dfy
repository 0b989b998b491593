/** The license policy: what each error of its validation means, and what a clean validation promises. */
module LicensePolicy {
  import opened Common
  import opened LineText
  import opened PackageNames

  type Date = int
  type Key = (string, string)

  // What `str` makes of a JSON value that is no text; it is never empty.
  type Rendering = s: string | s != "" witness "None"

  // A field that is read as it stands in one place and through `str` in another.
  datatype Field = Missing | Text(text: string) | Other(shown: Rendering)

  function Str(f: Field): string {
    match f
    case Missing => ""
    case Text(text) => text
    case Other(shown) => shown
  }

  // Options are None when a field is missing or of another kind; obligations records whether the list
  // is non-empty.
  datatype Component = Component(
    name: string, version: Field, scopes: seq<string>, spdx: string, sourceUrl: Option<string>,
    attributionIncluded: bool, obligations: bool)

  datatype Exception = Exception(
    id: string, component: Field, spdx: Field, approvedBy: Option<set<string>>,
    evidenceRef: Option<string>, reason: Option<string>, expiresOn: Option<Date>)

  datatype Classes = Classes(approved: set<string>, conditional: set<string>, denied: set<string>)

  // Entries that are no objects are None.
  datatype Policy = Policy(
    components: Option<seq<Option<Component>>>, exceptions: Option<seq<Option<Exception>>>, classes: Option<Classes>)

  type LockFiles = map<Key, string>

  const APPROVERS: set<string> := {"lotus-idea-owners", "security", "legal"}

  datatype Error =
    | ComponentsMustBeList | ComponentMustBeObject | DuplicateComponent(key: Key) | VersionRequired(name: string)
    | SourceUrlRequired(name: string) | AttributionRequired(name: string) | ClassificationRequired
    | NotApproved(token: string, name: string) | ObligationsRequired(name: string)
    | MissingLocked(key: Key) | VersionDrift(key: Key) | Unlocked(key: Key)
    | ExceptionsMustBeList | ExceptionMustBeObject | BadExceptionId | DuplicateExceptionId(id: string)
    | NotInventoried(id: string) | SpdxMismatch(id: string) | ApprovalsRequired(id: string)
    | EvidenceRequired(id: string) | ReasonRequired(id: string) | ExpiryRequired(id: string) | Expired(id: string)

  /***** License expressions *****/

  predicate IsTokenStart(c: char) { IsAlphanumeric(c) }

  predicate IsTokenChar(c: char) { IsTokenStart(c) || c == '.' || c == '+' || c == '-' }

  lemma TokenCharacters(c: char)
    ensures IsTokenStart(c) <==> IsAlphanumeric(c)
    ensures IsTokenChar(c) <==> IsAlphanumeric(c) || c in {'.', '+', '-'}
  {
  }

  function AllTokens(text: string): set<string>
    decreases |text|
  {
    if text == "" then {}
    else if IsTokenStart(text[0]) then
      var n := RunLength(text, IsTokenChar);
      {text[..n]} + AllTokens(text[n..])
    else AllTokens(text[1..])
  }

  // Characters i .. j of text are a token: they start with a start character, go on to the end of the
  // run of token characters, and no start character precedes them in that run.
  ghost predicate IsToken(text: string, i: int, j: int) {
    && 0 <= i < j <= |text| && IsTokenStart(text[i])
    && (forall m :: i <= m < j ==> IsTokenChar(text[m]))
    && (j < |text| ==> !IsTokenChar(text[j]))
    && forall k :: 0 <= k < i && (forall m :: k <= m < i ==> IsTokenChar(text[m])) ==> !IsTokenStart(text[k])
  }

  ghost predicate TokenAt(text: string, i: int, j: int, token: string) { IsToken(text, i, j) && text[i..j] == token }

  ghost predicate Holds(text: string, token: string) { exists i, j :: TokenAt(text, i, j, token) }

  lemma LaterToken(text: string, n: nat, i: nat, j: nat, token: string)
    requires IsToken(text, 0, n)
    ensures TokenAt(text[n..], i, j, token) <==> TokenAt(text, n + i, n + j, token)
  {
  }

  lemma LaterOther(text: string, i: nat, j: nat, token: string)
    requires text != "" && !IsTokenStart(text[0])
    ensures TokenAt(text[1..], i, j, token) <==> TokenAt(text, i + 1, j + 1, token)
  {
  }

  lemma HoldsAfterToken(text: string, n: nat, token: string)
    requires IsToken(text, 0, n)
    ensures Holds(text, token) <==> token == text[..n] || Holds(text[n..], token)
  {
    if Holds(text[n..], token) {
      var i, j :| TokenAt(text[n..], i, j, token);
      LaterToken(text, n, i, j, token);
    }
    if i, j :| TokenAt(text, i, j, token) {
      if i > 0 { LaterToken(text, n, i - n, j - n, token); }
    }
    assert text[0..n] == text[..n];
    assert token == text[..n] ==> TokenAt(text, 0, n, token);
  }

  lemma HoldsAfterOther(text: string, token: string)
    requires text != "" && !IsTokenStart(text[0])
    ensures Holds(text, token) <==> Holds(text[1..], token)
  {
    if Holds(text[1..], token) {
      var i, j :| TokenAt(text[1..], i, j, token);
      LaterOther(text, i, j, token);
    }
    if i, j :| TokenAt(text, i, j, token) {
      LaterOther(text, i - 1, j - 1, token);
    }
  }

  /** The search finds exactly the tokens. */
  lemma {:induction false} AllTokensExact(text: string, token: string)
    ensures token in AllTokens(text) <==> Holds(text, token)
    decreases |text|
  {
    if text != "" {
      if IsTokenStart(text[0]) {
        var n := RunLength(text, IsTokenChar);
        HoldsAfterToken(text, n, token);
        AllTokensExact(text[n..], token);
      } else {
        HoldsAfterOther(text, token);
        AllTokensExact(text[1..], token);
      }
    }
  }

  function Tokens(expression: string): set<string> { AllTokens(expression) - {"AND", "OR", "WITH"} }

  /** The license tokens are those that are no operator. */
  lemma TokensExact(expression: string, token: string)
    ensures token in Tokens(expression) <==> Holds(expression, token) && token != "AND" && token != "OR" && token != "WITH"
  {
    AllTokensExact(expression, token);
  }

  /***** Exceptions *****/

  ghost predicate IsGiven(text: Option<string>) {
    text.Some? && exists i :: 0 <= i < |text.value| && text.value[i] !in {' ', '\t'}
  }

  predicate HasText(text: Option<string>): (given: bool)
    ensures given <==> IsGiven(text)
  {
    if text.Some? then BlankExact(text.value); !IsBlank(text.value) else false
  }

  const EXCEPTION_PREFIX := "LIC-EX-"

  predicate IsNumeral(c: char) { '0' <= c <= '9' }

  ghost predicate IsExceptionId(id: string) {
    EXCEPTION_PREFIX <= id && |id| >= |EXCEPTION_PREFIX| + 3 && forall i :: |EXCEPTION_PREFIX| <= i < |id| ==> '0' <= id[i] <= '9'
  }

  predicate MatchesExceptionId(id: string): (matches: bool)
    ensures matches <==> IsExceptionId(id)
  {
    var number := AfterKey(id, EXCEPTION_PREFIX);
    assert number.Some? ==> forall i :: |EXCEPTION_PREFIX| <= i < |id| ==> id[i] == number.value[i - |EXCEPTION_PREFIX|];
    number.Some? && |number.value| >= 3 && RunLength(number.value, IsNumeral) == |number.value|
  }

  // What makes an exception count for one token of one component on a day.
  ghost predicate Honours(x: Exception, name: string, token: string, day: Date) {
    && x.component == Text(name) && x.spdx == Text(token)
    && x.approvedBy == Some(APPROVERS)
    && IsGiven(x.evidenceRef) && IsGiven(x.reason)
    && x.expiresOn.Some? && day <= x.expiresOn.value
  }

  ghost predicate Covered(policy: Policy, name: string, token: string, day: Date) {
    policy.exceptions.Some? &&
    exists i :: 0 <= i < |policy.exceptions.value| && policy.exceptions.value[i].Some? &&
      Honours(policy.exceptions.value[i].value, name, token, day)
  }

  method HasActiveException(policy: Policy, name: string, token: string, day: Date) returns (found: bool)
    ensures found <==> Covered(policy, name, token, day)
  {
    if policy.exceptions.None? { return false; }
    var exceptions := policy.exceptions.value;
    for i := 0 to |exceptions|
      invariant forall j :: 0 <= j < i && exceptions[j].Some? ==> !Honours(exceptions[j].value, name, token, day)
    {
      if exceptions[i].None? { continue; }
      var x := exceptions[i].value;
      if x.component != Text(name) || x.spdx != Text(token) || x.approvedBy != Some(APPROVERS) { continue; }
      if !HasText(x.evidenceRef) || !HasText(x.reason) { continue; }
      if x.expiresOn.Some? && day <= x.expiresOn.value { return true; }
    }
    found := false;
  }

  /***** What each component error means *****/

  datatype Entry = Entry(key: Key, component: Component)

  function ScopeEntries(c: Component): (entries: seq<Entry>)
    ensures |entries| == |c.scopes|
    ensures forall i :: 0 <= i < |entries| ==> entries[i] == Entry((c.scopes[i], Canonical(c.name)), c)
  {
    seq(|c.scopes|, i requires 0 <= i < |c.scopes| => Entry((c.scopes[i], Canonical(c.name)), c))
  }

  // The inventory as it is read: one entry for each scope of each component, in order.
  function Inventory(components: seq<Option<Component>>): seq<Entry> {
    if components == [] then []
    else
      var last := components[|components| - 1];
      Inventory(components[..|components| - 1]) + if last.Some? then ScopeEntries(last.value) else []
  }

  // The last entry under key, which is the one that the inventory keeps.
  ghost predicate Observed(entries: seq<Entry>, key: Key, c: Component) {
    exists i :: 0 <= i < |entries| && entries[i] == Entry(key, c) && NotAfter(entries, key, i)
  }

  ghost predicate NotAfter(entries: seq<Entry>, key: Key, i: nat) {
    forall j :: i < j < |entries| ==> entries[j].key != key
  }

  ghost predicate Repeated(entries: seq<Entry>, key: Key) {
    exists i, j :: 0 <= i < j < |entries| && entries[i].key == key && entries[j].key == key
  }

  ghost predicate Inventoried(entries: seq<Entry>, key: Key) {
    exists i :: 0 <= i < |entries| && entries[i].key == key
  }

  const HTTPS := "https://"

  ghost predicate IsUrl(url: Option<string>) { url.Some? && HTTPS <= url.value }

  predicate HasUrl(url: Option<string>): (found: bool)
    ensures found <==> IsUrl(url)
  {
    url.Some? && HTTPS <= url.value
  }

  // The errors that one component raises by itself.
  ghost predicate ComponentFault(policy: Policy, c: Component, day: Date, e: Error) {
    var name := Canonical(c.name);
    match e
    case SourceUrlRequired(n) => n == name && !IsUrl(c.sourceUrl)
    case AttributionRequired(n) => n == name && !c.attributionIncluded
    case ClassificationRequired => policy.classes.None?
    case NotApproved(token, n) =>
      && n == name && policy.classes.Some? && token in Tokens(c.spdx)
      && !Permitted(policy.classes.value, token) && !Covered(policy, name, token, day)
    case ObligationsRequired(n) =>
      n == name && policy.classes.Some? && policy.classes.value.conditional * Tokens(c.spdx) != {} && !c.obligations
    case VersionRequired(n) => n == name && Str(c.version) == ""
    case _ => false
  }

  ghost predicate Permitted(classes: Classes, token: string) {
    token !in classes.denied && (token in classes.approved || token in classes.conditional)
  }

  // The error of an entry that is no object, or a fault of some component.
  ghost predicate Faulty(policy: Policy, components: seq<Option<Component>>, day: Date, e: Error) {
    exists i :: 0 <= i < |components| && FaultyAt(policy, components[i], day, e)
  }

  ghost predicate FaultyAt(policy: Policy, component: Option<Component>, day: Date, e: Error) {
    if component.None? then e == ComponentMustBeObject else ComponentFault(policy, component.value, day, e)
  }

  // The inventory and the locks disagree about a key.
  ghost predicate LockFault(locks: LockFiles, entries: seq<Entry>, e: Error) {
    match e
    case MissingLocked(key) => key in locks && !Inventoried(entries, key)
    case VersionDrift(key) => key in locks && exists c :: Observed(entries, key, c) && c.version != Text(locks[key])
    case Unlocked(key) => Inventoried(entries, key) && key !in locks
    case _ => false
  }

  ghost predicate ComponentError(policy: Policy, locks: LockFiles, day: Date, e: Error) {
    if policy.components.None? then e == ComponentsMustBeList
    else
      var entries := Inventory(policy.components.value);
      || (e.DuplicateComponent? && Repeated(entries, e.key))
      || Faulty(policy, policy.components.value, day, e)
      || LockFault(locks, entries, e)
  }

  /***** What each exception error means *****/

  // tokens are those of the last component with this canonical name.
  ghost predicate Licensed(components: seq<Option<Component>>, name: string, tokens: set<string>) {
    exists i :: 0 <= i < |components| && LastNamed(components, name, i) && tokens == Tokens(components[i].value.spdx)
  }

  ghost predicate LastNamed(components: seq<Option<Component>>, name: string, i: nat)
    ensures LastNamed(components, name, i) ==> i < |components| && components[i].Some?
  {
    && i < |components| && components[i].Some? && Canonical(components[i].value.name) == name
    && forall j :: i < j < |components| && components[j].Some? ==> Canonical(components[j].value.name) != name
  }

  ghost predicate Named(components: seq<Option<Component>>, name: string) {
    exists i :: 0 <= i < |components| && components[i].Some? && Canonical(components[i].value.name) == name
  }

  function ComponentList(policy: Policy): seq<Option<Component>> {
    if policy.components.Some? then policy.components.value else []
  }

  // The errors of what an exception is for.
  ghost predicate TargetFault(policy: Policy, x: Exception, e: Error) {
    var name := Canonical(Str(x.component));
    match e
    case NotInventoried(id) => id == x.id && !Named(ComponentList(policy), name)
    case SpdxMismatch(id) =>
      id == x.id && exists tokens :: Licensed(ComponentList(policy), name, tokens) && Str(x.spdx) !in tokens
    case _ => false
  }

  // The errors of how it is approved, and for how long.
  ghost predicate ApprovalFault(x: Exception, day: Date, e: Error) {
    match e
    case ApprovalsRequired(id) => id == x.id && x.approvedBy != Some(APPROVERS)
    case EvidenceRequired(id) => id == x.id && !IsUrl(x.evidenceRef)
    case ReasonRequired(id) => id == x.id && !IsGiven(x.reason)
    case ExpiryRequired(id) => id == x.id && x.expiresOn.None?
    case Expired(id) => id == x.id && x.expiresOn.Some? && x.expiresOn.value < day
    case _ => false
  }

  ghost predicate ExceptionFault(policy: Policy, x: Exception, day: Date, e: Error) {
    (e == BadExceptionId && !IsExceptionId(x.id)) || TargetFault(policy, x, e) || ApprovalFault(x, day, e)
  }

  // The error of exception entry i, given the entries before it.
  ghost predicate ExceptionFaultAt(policy: Policy, exceptions: seq<Option<Exception>>, day: Date, i: nat, e: Error)
    requires i < |exceptions|
  {
    if exceptions[i].None? then e == ExceptionMustBeObject
    else
      var x := exceptions[i].value;
      || ExceptionFault(policy, x, day, e)
      || (e == DuplicateExceptionId(x.id) && IsExceptionId(x.id) && SeenBefore(exceptions, x.id, i))
  }

  ghost predicate SeenBefore(exceptions: seq<Option<Exception>>, id: string, i: nat) {
    exists j :: 0 <= j < i && j < |exceptions| && exceptions[j].Some? && exceptions[j].value.id == id
  }

  ghost predicate ExceptionError(policy: Policy, day: Date, e: Error) {
    if policy.exceptions.None? then e == ExceptionsMustBeList
    else exists i :: 0 <= i < |policy.exceptions.value| && ExceptionFaultAt(policy, policy.exceptions.value, day, i, e)
  }

  // The policy validates on a day: neither part raises an error.
  ghost predicate Validates(policy: Policy, locks: LockFiles, day: Date) {
    forall e :: !ComponentError(policy, locks, day, e) && !ExceptionError(policy, day, e)
  }

  /***** Theorems *****/

  lemma ExceptionErrorsPersist(policy: Policy, earlier: Date, later: Date, e: Error)
    requires earlier <= later && ExceptionError(policy, earlier, e)
    ensures ExceptionError(policy, later, e)
  {
    if policy.exceptions.Some? {
      var exceptions := policy.exceptions.value;
      var i :| 0 <= i < |exceptions| && ExceptionFaultAt(policy, exceptions, earlier, i, e);
      if exceptions[i].Some? && ExceptionFault(policy, exceptions[i].value, earlier, e) {
      }
      assert ExceptionFaultAt(policy, exceptions, later, i, e);
    }
  }

  /** Time only takes away: every error of an earlier day is an error of a later day, so a policy that
      validates on one day validates on every day before it. */
  lemma ErrorsPersist(policy: Policy, locks: LockFiles, earlier: Date, later: Date)
    requires earlier <= later
    ensures forall e :: ComponentError(policy, locks, earlier, e) ==> ComponentError(policy, locks, later, e)
    ensures forall e :: ExceptionError(policy, earlier, e) ==> ExceptionError(policy, later, e)
    ensures Validates(policy, locks, later) ==> Validates(policy, locks, earlier)
  {
    forall e | ComponentError(policy, locks, earlier, e) ensures ComponentError(policy, locks, later, e) {
    }
    forall e | ExceptionError(policy, earlier, e) ensures ExceptionError(policy, later, e) {
      ExceptionErrorsPersist(policy, earlier, later, e);
    }
  }

  // One inventory entry for the key, and its component carries this version.
  ghost predicate ExactlyOne(entries: seq<Entry>, key: Key, version: string) {
    exists i :: 0 <= i < |entries| && entries[i].key == key && entries[i].component.version == Text(version) &&
      forall j :: 0 <= j < |entries| && entries[j].key == key ==> j == i
  }

  // What the absence of errors about one key says.
  lemma NoKeyErrors(policy: Policy, locks: LockFiles, day: Date, key: Key)
    requires Validates(policy, locks, day)
    ensures policy.components.Some?
    ensures var entries := Inventory(policy.components.value);
            && !Repeated(entries, key)
            && (key in locks <==> Inventoried(entries, key))
            && (key in locks ==> forall c :: Observed(entries, key, c) ==> c.version == Text(locks[key]))
  {
    assert !ComponentError(policy, locks, day, ComponentsMustBeList);
    var entries := Inventory(policy.components.value);
    assert !ComponentError(policy, locks, day, DuplicateComponent(key));
    NoLockFault(policy, locks, day, MissingLocked(key));
    NoLockFault(policy, locks, day, VersionDrift(key));
    NoLockFault(policy, locks, day, Unlocked(key));
  }

  lemma NoLockFault(policy: Policy, locks: LockFiles, day: Date, e: Error)
    requires Validates(policy, locks, day) && policy.components.Some?
    ensures !LockFault(locks, Inventory(policy.components.value), e)
  {
    assert !ComponentError(policy, locks, day, e);
  }

  /** Acceptance: the inventory and the locks are in bijection with equal versions, and every license
      token of every component is permitted or covered by an exception that is honoured that day. */
  lemma ValidatedInventory(policy: Policy, locks: LockFiles, day: Date)
    requires Validates(policy, locks, day)
    ensures policy.components.Some?
    ensures var entries := Inventory(policy.components.value);
            && (forall key :: key in locks ==> ExactlyOne(entries, key, locks[key]))
            && (forall i :: 0 <= i < |entries| ==> entries[i].key in locks)
  {
    NoKeyErrors(policy, locks, day, ("", ""));
    var entries := Inventory(policy.components.value);
    forall key | key in locks ensures ExactlyOne(entries, key, locks[key]) {
      NoKeyErrors(policy, locks, day, key);
    }
    forall i | 0 <= i < |entries| ensures entries[i].key in locks {
      NoKeyErrors(policy, locks, day, entries[i].key);
    }
  }

  lemma ValidatedLicenses(policy: Policy, locks: LockFiles, day: Date, i: nat)
    requires Validates(policy, locks, day)
    requires policy.components.Some? && i < |policy.components.value|
    ensures policy.components.value[i].Some? && policy.classes.Some?
    ensures var c, classes := policy.components.value[i].value, policy.classes.value;
            && (forall token :: token in Tokens(c.spdx) ==>
                  Permitted(classes, token) || Covered(policy, Canonical(c.name), token, day))
            && (classes.conditional * Tokens(c.spdx) != {} ==> c.obligations)
            && Str(c.version) != "" && IsUrl(c.sourceUrl) && c.attributionIncluded
  {
    NoComponentFault(policy, locks, day, i, ComponentMustBeObject);
    var c := policy.components.value[i].value;
    var name := Canonical(c.name);
    NoComponentFault(policy, locks, day, i, ClassificationRequired);
    NoComponentFault(policy, locks, day, i, SourceUrlRequired(name));
    NoComponentFault(policy, locks, day, i, AttributionRequired(name));
    NoComponentFault(policy, locks, day, i, ObligationsRequired(name));
    NoComponentFault(policy, locks, day, i, VersionRequired(name));
    forall token | token in Tokens(c.spdx)
      ensures Permitted(policy.classes.value, token) || Covered(policy, name, token, day)
    {
      NoComponentFault(policy, locks, day, i, NotApproved(token, name));
    }
  }

  lemma NoComponentFault(policy: Policy, locks: LockFiles, day: Date, i: nat, e: Error)
    requires Validates(policy, locks, day)
    requires policy.components.Some? && i < |policy.components.value|
    ensures !FaultyAt(policy, policy.components.value[i], day, e)
  {
    assert !ComponentError(policy, locks, day, e);
  }

  lemma NoExceptionFault(policy: Policy, day: Date, i: nat, e: Error)
    requires forall other :: !ExceptionError(policy, day, other)
    requires policy.exceptions.Some? && i < |policy.exceptions.value|
    ensures !ExceptionFaultAt(policy, policy.exceptions.value, day, i, e)
  {
    assert !ExceptionError(policy, day, e);
  }

  lemma ApprovedException(policy: Policy, day: Date, i: nat)
    requires policy.exceptions.Some? && i < |policy.exceptions.value|
    requires forall e :: !ExceptionError(policy, day, e)
    ensures policy.exceptions.value[i].Some?
    ensures var x := policy.exceptions.value[i].value;
            && x.approvedBy == Some(APPROVERS) && IsGiven(x.evidenceRef) && IsGiven(x.reason)
            && x.expiresOn.Some? && day <= x.expiresOn.value
  {
    NoExceptionFault(policy, day, i, ExceptionMustBeObject);
    var x := policy.exceptions.value[i].value;
    forall e ensures !ApprovalFault(x, day, e) { NoExceptionFault(policy, day, i, e); }
    assert !ApprovalFault(x, day, ApprovalsRequired(x.id)) && !ApprovalFault(x, day, EvidenceRequired(x.id));
    assert !ApprovalFault(x, day, ReasonRequired(x.id)) && !ApprovalFault(x, day, ExpiryRequired(x.id));
    assert !ApprovalFault(x, day, Expired(x.id));
    assert x.evidenceRef.value[0] == HTTPS[0] && HTTPS[0] == 'h';
  }

  /** Exceptions are validated by canonical name but honoured by the text as written: a validated
      exception is honoured for the component it was validated against exactly when its component text
      is already canonical. */
  lemma HonouredExactly(policy: Policy, day: Date, i: nat)
    requires policy.exceptions.Some? && i < |policy.exceptions.value|
    requires forall e :: !ExceptionError(policy, day, e)
    ensures policy.exceptions.value[i].Some?
    ensures var x := policy.exceptions.value[i].value;
            Honours(x, Canonical(Str(x.component)), Str(x.spdx), day) <==>
              x.component.Text? && x.spdx.Text? && IsCanonical(x.component.text)
  {
    ApprovedException(policy, day, i);
    CanonicalExact(Str(policy.exceptions.value[i].value.component));
  }

  /***** A validated exception that is not honoured *****/

  const SPELLED := Component("a_b", Text("1"), [], "MIT", Some("https://x"), true, true)
  const EXCUSE := Exception(
    "LIC-EX-001", Text("a_b"), Text("MIT"), Some(APPROVERS), Some("https://x"), Some("legacy"), Some(9))
  const SPELLED_POLICY := Policy(Some([Some(SPELLED)]), Some([Some(EXCUSE)]), Some(Classes({}, {}, {})))

  lemma MitIsToken()
    ensures Tokens("MIT") == {"MIT"}
  {
    var text := "MIT";
    assert RunLength(text, IsTokenChar) == 3 by {
      assert All(text, IsTokenChar) && text + "" == text;
      RunIsLongest(text, "", IsTokenChar);
    }
    assert text[..3] == text && text[3..] == "";
    assert AllTokens(text) == {text};
    assert text[0] == 'M' && "AND"[0] == 'A' && "OR"[0] == 'O' && "WITH"[0] == 'W';
  }

  lemma ExcuseIsApproved(e: Error)
    ensures !ApprovalFault(EXCUSE, 5, e) && IsExceptionId(EXCUSE.id)
  {
    assert "legacy"[0] == 'l' && EXCUSE.reason.value[0] !in {' ', '\t'};
    assert |EXCUSE.id| == 10 && |EXCEPTION_PREFIX| == 7;
  }

  lemma ExcuseHasTarget(e: Error)
    ensures !TargetFault(SPELLED_POLICY, EXCUSE, e)
  {
    var components := [Some(SPELLED)];
    MitIsToken();
    assert components[0].Some? && Canonical(components[0].value.name) == Canonical("a_b");
    assert Named(components, Canonical("a_b"));
    forall tokens | Licensed(components, Canonical("a_b"), tokens) ensures "MIT" in tokens {
    }
  }

  lemma SpelledIsRejected()
    requires !Honours(EXCUSE, Canonical("a_b"), "MIT", 5)
    ensures ComponentError(SPELLED_POLICY, map[], 5, NotApproved("MIT", Canonical("a_b")))
  {
    var e := NotApproved("MIT", Canonical("a_b"));
    var components := [Some(SPELLED)];
    MitIsToken();
    assert ComponentFault(SPELLED_POLICY, SPELLED, 5, e);
    assert FaultyAt(SPELLED_POLICY, components[0], 5, e);
    assert Faulty(SPELLED_POLICY, components, 5, e);
  }

  /** Every exception of the policy validates, and the one for a_b is not honoured for it, because
      components are looked up by the canonical name a-b: the component is rejected all the same. */
  lemma SpellingIsNotHonoured()
    ensures forall e :: !ExceptionError(SPELLED_POLICY, 5, e)
    ensures !Honours(EXCUSE, Canonical(SPELLED.name), "MIT", 5)
    ensures ComponentError(SPELLED_POLICY, map[], 5, NotApproved("MIT", Canonical(SPELLED.name)))
  {
    forall e ensures !ExceptionError(SPELLED_POLICY, 5, e) {
      ExcuseIsApproved(e);
      ExcuseHasTarget(e);
      assert !ExceptionFault(SPELLED_POLICY, EXCUSE, 5, e);
      OnlyException(SPELLED_POLICY, EXCUSE, 5, e);
    }
    HonouredExactly(SPELLED_POLICY, 5, 0);
    assert EXCUSE.component.text[1] == '_';
    SpelledIsRejected();
  }

  /***** Components without a license token *****/

  // No policy and no day can make an error about the licenses of the component.
  ghost predicate NeverNotApproved(c: Component) {
    forall policy, day, token, name :: !ComponentFault(policy, c, day, NotApproved(token, name))
  }

  /** The licenses of a component are checked exactly when its expression has a token: with one, a policy
      without exceptions and classes rejects it; without one, no policy does. */
  lemma CheckedExactly(c: Component)
    ensures NeverNotApproved(c) <==> Tokens(c.spdx) == {}
  {
    if token :| token in Tokens(c.spdx) {
      var strict := Policy(None, Some([]), Some(Classes({}, {}, {})));
      assert ComponentFault(strict, c, 0, NotApproved(token, Canonical(c.name)));
    }
  }

  const UNLICENSED := Component("a", Text("1"), ["runtime"], "", Some("https://x"), true, false)
  const UNLICENSED_POLICY := Policy(Some([Some(UNLICENSED)]), Some([]), Some(Classes({}, {}, {})))

  lemma UnlicensedEntries()
    ensures Inventory([Some(UNLICENSED)]) == [Entry(("runtime", "a"), UNLICENSED)]
  {
    var components := [Some(UNLICENSED)];
    assert components[..0] == [] && components[0] == Some(UNLICENSED);
    CanonicalExact("a");
    assert ScopeEntries(UNLICENSED) == [Entry(("runtime", "a"), UNLICENSED)];
  }

  /** A locked component without a license validates although the policy approves no license at all. */
  lemma UnlicensedValidates(day: Date)
    ensures Validates(UNLICENSED_POLICY, map[("runtime", "a") := "1"], day)
  {
    UnlicensedEntries();
    var entries := Inventory([Some(UNLICENSED)]);
    forall e ensures !ComponentError(UNLICENSED_POLICY, map[("runtime", "a") := "1"], day, e) {
      assert Tokens("") == {};
      assert !ComponentFault(UNLICENSED_POLICY, UNLICENSED, day, e);
      assert entries[0].key == ("runtime", "a");
    }
  }

  lemma OnlyException(policy: Policy, x: Exception, day: Date, e: Error)
    requires policy.exceptions == Some([Some(x)]) && !ExceptionFault(policy, x, day, e)
    ensures !ExceptionError(policy, day, e)
  {
    forall i: nat | i < 1 ensures !ExceptionFaultAt(policy, [Some(x)], day, i, e) {
      assert !SeenBefore([Some(x)], x.id, i);
    }
  }
}

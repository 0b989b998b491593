/** The validators as they run, appending errors entry by entry. */
module LicenseValidation {
  import opened Common
  import opened PackageNames
  import opened LicensePolicy

  method CheckTokens(policy: Policy, classes: Classes, c: Component, day: Date) returns (errors: seq<Error>)
    requires policy.classes == Some(classes)
    ensures forall e :: e in errors <==> e.NotApproved? && ComponentFault(policy, c, day, e)
  {
    errors := [];
    var name := Canonical(c.name);
    var tokens := Tokens(c.spdx);
    var rest := tokens;
    while rest != {}
      invariant rest <= tokens
      invariant forall e :: e in errors <==>
                  && e.NotApproved? && e.name == name && e.token in tokens - rest
                  && !Permitted(classes, e.token) && !Covered(policy, name, e.token, day)
    {
      var token :| token in rest;
      if token in classes.denied || token !in classes.approved + classes.conditional {
        var active := HasActiveException(policy, name, token, day);
        if !active { errors := errors + [NotApproved(token, name)]; }
      }
      rest := rest - {token};
    }
  }

  method CheckComponent(policy: Policy, c: Component, day: Date) returns (errors: seq<Error>)
    ensures forall e :: e in errors <==> ComponentFault(policy, c, day, e)
  {
    errors := [];
    var name := Canonical(c.name);
    if !HasUrl(c.sourceUrl) { errors := errors + [SourceUrlRequired(name)]; }
    if !c.attributionIncluded { errors := errors + [AttributionRequired(name)]; }
    if policy.classes.None? {
      errors := errors + [ClassificationRequired];
    } else {
      var tokens := CheckTokens(policy, policy.classes.value, c, day);
      errors := errors + tokens;
      if policy.classes.value.conditional * Tokens(c.spdx) != {} && !c.obligations {
        errors := errors + [ObligationsRequired(name)];
      }
    }
    if Str(c.version) == "" { errors := errors + [VersionRequired(name)]; }
  }

  // observed holds the last entry of every key among entries.
  ghost predicate Holds(observed: map<Key, Component>, entries: seq<Entry>) {
    && (forall key :: key in observed ==> Observed(entries, key, observed[key]))
    && (forall i :: 0 <= i < |entries| ==> entries[i].key in observed)
  }

  lemma OneMoreEntry(observed: map<Key, Component>, entries: seq<Entry>, entry: Entry)
    requires Holds(observed, entries)
    ensures Holds(observed[entry.key := entry.component], entries + [entry])
    ensures forall key :: Repeated(entries + [entry], key) <==>
              Repeated(entries, key) || (key == entry.key && entry.key in observed)
  {
    var more := entries + [entry];
    assert more[|entries|] == entry == Entry(entry.key, entry.component);
    assert NotAfter(more, entry.key, |entries|);
    forall key | key in observed && key != entry.key ensures Observed(more, key, observed[key]) {
      var i :| 0 <= i < |entries| && entries[i] == Entry(key, observed[key]) && NotAfter(entries, key, i);
      assert more[i] == entries[i] && NotAfter(more, key, i);
    }
    forall key ensures Repeated(more, key) <==> Repeated(entries, key) || (key == entry.key && entry.key in observed) {
      OneMoreRepeat(entries, entry, key);
      ObservedIsKept(observed, entries, key);
    }
  }

  lemma OneMoreRepeat(entries: seq<Entry>, entry: Entry, key: Key)
    ensures Repeated(entries + [entry], key) <==>
              Repeated(entries, key) || (key == entry.key && Inventoried(entries, key))
  {
    var more := entries + [entry];
    if Repeated(entries, key) {
      var i, j :| 0 <= i < j < |entries| && entries[i].key == key && entries[j].key == key;
      assert more[i].key == key && more[j].key == key;
    }
    if key == entry.key && Inventoried(entries, key) {
      var i :| 0 <= i < |entries| && entries[i].key == key;
      assert more[i].key == key && more[|entries|].key == key;
    }
    if Repeated(more, key) {
      var i, j :| 0 <= i < j < |more| && more[i].key == key && more[j].key == key;
      assert entries[i].key == key;
      assert j < |entries| ==> entries[j].key == key;
    }
  }

  // Every duplicate error so far, and no other error.
  ghost predicate Duplicates(errors: seq<Error>, entries: seq<Entry>) {
    forall e :: e in errors <==> e.DuplicateComponent? && Repeated(entries, e.key)
  }

  method ReadScopes(c: Component, ghost entries: seq<Entry>, observed: map<Key, Component>, errors: seq<Error>)
      returns (observed': map<Key, Component>, errors': seq<Error>)
    requires Holds(observed, entries) && Duplicates(errors, entries)
    ensures Holds(observed', entries + ScopeEntries(c)) && Duplicates(errors', entries + ScopeEntries(c))
  {
    observed', errors' := observed, errors;
    var name := Canonical(c.name);
    ghost var added := ScopeEntries(c);
    assert entries + added[..0] == entries;
    for i := 0 to |c.scopes|
      invariant Holds(observed', entries + added[..i]) && Duplicates(errors', entries + added[..i])
    {
      var key := (c.scopes[i], name);
      OneMoreEntry(observed', entries + added[..i], added[i]);
      assert entries + added[..i + 1] == entries + added[..i] + [added[i]];
      if key in observed' { errors' := errors' + [DuplicateComponent(key)]; }
      observed' := observed'[key := c];
    }
    assert added[..|c.scopes|] == added;
  }

  // The first loop over the components: the inventory with its duplicates, and each component's own faults.
  method ReadComponents(policy: Policy, day: Date)
      returns (observed: map<Key, Component>, duplicates: seq<Error>, faults: seq<Error>)
    requires policy.components.Some?
    ensures Holds(observed, Inventory(policy.components.value))
    ensures Duplicates(duplicates, Inventory(policy.components.value))
    ensures forall e :: e in faults <==> Faulty(policy, policy.components.value, day, e)
  {
    var components := policy.components.value;
    observed, duplicates, faults := map[], [], [];
    for i := 0 to |components|
      invariant Holds(observed, Inventory(components[..i])) && Duplicates(duplicates, Inventory(components[..i]))
      invariant forall e :: e in faults <==> Faulty(policy, components[..i], day, e)
    {
      assert components[..i + 1][..i] == components[..i];
      OneMoreFaulty(policy, components[..i], components[i], day);
      assert components[..i + 1] == components[..i] + [components[i]];
      if components[i].None? {
        faults := faults + [ComponentMustBeObject];
        assert Inventory(components[..i + 1]) == Inventory(components[..i]);
      } else {
        observed, duplicates := ReadScopes(components[i].value, Inventory(components[..i]), observed, duplicates);
        var found := CheckComponent(policy, components[i].value, day);
        faults := faults + found;
      }
    }
    assert components[..|components|] == components;
  }

  lemma OneMoreFaulty(policy: Policy, components: seq<Option<Component>>, next: Option<Component>, day: Date)
    ensures forall e :: Faulty(policy, components + [next], day, e) <==>
              Faulty(policy, components, day, e) || FaultyAt(policy, next, day, e)
  {
    var more := components + [next];
    assert more[|components|] == next;
    assert forall i :: 0 <= i < |components| ==> more[i] == components[i];
  }

  lemma ObservedIsKept(observed: map<Key, Component>, entries: seq<Entry>, key: Key)
    requires Holds(observed, entries)
    ensures key in observed <==> Inventoried(entries, key)
    ensures key in observed ==> forall c :: Observed(entries, key, c) <==> c == observed[key]
    ensures key !in observed ==> forall c :: !Observed(entries, key, c)
  {
  }

  // The comparison of the inventory with the locks.
  method CompareLocks(observed: map<Key, Component>, locks: LockFiles, ghost entries: seq<Entry>) returns (errors: seq<Error>)
    requires Holds(observed, entries)
    ensures forall e :: e in errors <==> LockFault(locks, entries, e)
  {
    errors := [];
    forall key { ObservedIsKept(observed, entries, key); }
    var expected := locks.Keys;
    while expected != {}
      invariant expected <= locks.Keys
      invariant forall e :: e in errors <==> !e.Unlocked? && LockFault(locks, entries, e) && e.key in locks.Keys - expected
    {
      var key :| key in expected;
      if key !in observed {
        errors := errors + [MissingLocked(key)];
      } else if observed[key].version != Text(locks[key]) {
        errors := errors + [VersionDrift(key)];
      }
      expected := expected - {key};
    }
    var extra := observed.Keys - locks.Keys;
    while extra != {}
      invariant extra <= observed.Keys - locks.Keys
      invariant forall e :: e in errors <==>
                  LockFault(locks, entries, e) && (e.Unlocked? ==> e.key !in extra)
    {
      var key :| key in extra;
      errors := errors + [Unlocked(key)];
      extra := extra - {key};
    }
  }

  /** Every error of the component validation means what ComponentError says, and none is missing. */
  method ValidateComponents(policy: Policy, locks: LockFiles, day: Date) returns (errors: seq<Error>)
    ensures forall e :: e in errors <==> ComponentError(policy, locks, day, e)
  {
    if policy.components.None? { return [ComponentsMustBeList]; }
    var observed, duplicates, faults := ReadComponents(policy, day);
    ghost var entries := Inventory(policy.components.value);
    var lockErrors := CompareLocks(observed, locks, entries);
    errors := duplicates + faults + lockErrors;
  }

  /***** Exceptions *****/

  // The dictionary of licenses: for each canonical name the tokens of its last component.
  ghost predicate Licenses(licenses: map<string, set<string>>, components: seq<Option<Component>>) {
    && (forall name :: name in licenses ==> Licensed(components, name, licenses[name]))
    && (forall name, tokens :: Licensed(components, name, tokens) ==> name in licenses && licenses[name] == tokens)
    && (forall name :: Named(components, name) <==> name in licenses)
  }

  // at holds the last component of every canonical name among components, and licenses its tokens.
  ghost predicate LastOnes(licenses: map<string, set<string>>, at: map<string, nat>, components: seq<Option<Component>>) {
    && at.Keys == licenses.Keys
    && (forall name :: name in at ==>
          LastNamed(components, name, at[name]) && licenses[name] == Tokens(components[at[name]].value.spdx))
    && (forall j :: 0 <= j < |components| && components[j].Some? ==> Canonical(components[j].value.name) in at)
  }

  lemma OneMoreLicense(
      licenses: map<string, set<string>>, at: map<string, nat>, components: seq<Option<Component>>, next: Component)
    requires LastOnes(licenses, at, components)
    ensures var name := Canonical(next.name);
            LastOnes(licenses[name := Tokens(next.spdx)], at[name := |components|], components + [Some(next)])
  {
    var more, last := components + [Some(next)], Canonical(next.name);
    assert LastNamed(more, last, |components|);
    forall name | name in at && name != last ensures LastNamed(more, name, at[name]) {
      assert more[at[name]] == components[at[name]];
    }
  }

  method ComponentLicenses(components: seq<Option<Component>>) returns (licenses: map<string, set<string>>)
    ensures Licenses(licenses, components)
  {
    licenses := map[];
    ghost var at: map<string, nat> := map[];
    for i := 0 to |components|
      invariant LastOnes(licenses, at, components[..i])
    {
      assert components[..i + 1] == components[..i] + [components[i]];
      if components[i].Some? {
        OneMoreLicense(licenses, at, components[..i], components[i].value);
        var name := Canonical(components[i].value.name);
        licenses := licenses[name := Tokens(components[i].value.spdx)];
        at := at[name := i];
      } else {
      }
    }
    assert components[..|components|] == components;
  }

  method CheckTarget(policy: Policy, licenses: map<string, set<string>>, x: Exception) returns (errors: seq<Error>)
    requires Licenses(licenses, ComponentList(policy))
    ensures forall e :: e in errors <==> TargetFault(policy, x, e)
  {
    var component := Canonical(Str(x.component));
    if component !in licenses { return [NotInventoried(x.id)]; }
    assert Licensed(ComponentList(policy), component, licenses[component]);
    if Str(x.spdx) !in licenses[component] { return [SpdxMismatch(x.id)]; }
    return [];
  }

  method CheckApproval(x: Exception, day: Date) returns (errors: seq<Error>)
    ensures forall e :: e in errors <==> ApprovalFault(x, day, e)
  {
    errors := [];
    if x.approvedBy != Some(APPROVERS) { errors := errors + [ApprovalsRequired(x.id)]; }
    if !HasUrl(x.evidenceRef) { errors := errors + [EvidenceRequired(x.id)]; }
    if !HasText(x.reason) { errors := errors + [ReasonRequired(x.id)]; }
    assert forall e :: e in errors <==> ApprovalFault(x, day, e) && !e.ExpiryRequired? && !e.Expired?;
    if x.expiresOn.None? {
      errors := errors + [ExpiryRequired(x.id)];
    } else if x.expiresOn.value < day {
      errors := errors + [Expired(x.id)];
    }
  }

  method CheckException(policy: Policy, licenses: map<string, set<string>>, x: Exception, day: Date)
      returns (errors: seq<Error>)
    requires Licenses(licenses, ComponentList(policy))
    ensures forall e :: e in errors <==> ExceptionFault(policy, x, day, e)
  {
    var target := CheckTarget(policy, licenses, x);
    var approval := CheckApproval(x, day);
    errors := (if MatchesExceptionId(x.id) then [] else [BadExceptionId]) + target + approval;
  }

  method CheckExceptions(policy: Policy, exceptions: seq<Option<Exception>>, day: Date) returns (errors: seq<Error>)
    ensures forall e :: e in errors <==>
              exists i :: 0 <= i < |exceptions| && ExceptionFaultAt(policy, exceptions, day, i, e)
  {
    var licenses := ComponentLicenses(ComponentList(policy));
    errors := [];
    var seen: set<string> := {};
    for i := 0 to |exceptions|
      invariant forall id :: id in seen <==> SeenBefore(exceptions, id, i)
      invariant forall e :: e in errors <==> exists j :: 0 <= j < i && ExceptionFaultAt(policy, exceptions, day, j, e)
    {
      ghost var before := errors;
      if exceptions[i].None? {
        errors := errors + [ExceptionMustBeObject];
      } else {
        var x := exceptions[i].value;
        var found := CheckException(policy, licenses, x, day);
        if MatchesExceptionId(x.id) && x.id in seen { found := found + [DuplicateExceptionId(x.id)]; }
        errors := errors + found;
        seen := seen + {x.id};
      }
      assert forall e :: e in errors <==> e in before || ExceptionFaultAt(policy, exceptions, day, i, e);
    }
  }

  /** Every error of the exception validation means what ExceptionError says, and none is missing. */
  method ValidateExceptions(policy: Policy, day: Date) returns (errors: seq<Error>)
    ensures forall e :: e in errors <==> ExceptionError(policy, day, e)
  {
    if policy.exceptions.None? { return [ExceptionsMustBeList]; }
    errors := CheckExceptions(policy, policy.exceptions.value, day);
  }

  /** The policy is accepted on a day exactly when it validates, and what that means is proved of Validates. */
  method ValidateLicenses(policy: Policy, locks: LockFiles, day: Date) returns (errors: seq<Error>)
    ensures errors == [] <==> Validates(policy, locks, day)
  {
    var exceptions := ValidateExceptions(policy, day);
    var components := ValidateComponents(policy, locks, day);
    errors := exceptions + components;
    assert errors != [] ==> errors[0] in errors;
  }
}

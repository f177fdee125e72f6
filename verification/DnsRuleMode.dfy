/**
 What the mode analysis and the validation of DNS rules mean for the rules at every depth,
 and why they stay sound while rule-set metadata changes under a running router.
 */
module DnsRuleMode {
  import opened Wrappers
  import opened DnsRules

  // ----- Rules at every depth -----

  ghost function Nodes(rule: Rule): set<Rule>
    decreases rule, 1
  {
    {rule} + (if rule.Logical? then AllNodes(rule.rules) else {})
  }

  ghost function AllNodes(rules: seq<Rule>): set<Rule>
    decreases rules, 0
  {
    if rules == [] then {} else Nodes(rules[0]) + AllNodes(rules[1..])
  }

  ghost predicate Resolves(x: Rule, view: RuleSets) {
    x.Default? ==> forall tag :: tag in x.conditions.ruleSet ==> tag in view
  }

  ghost predicate Disables(x: Rule, view: RuleSets) {
    match x
    case Default(c, a) =>
      || DefaultDisablesLegacy(c, a) || ActionDisablesLegacy(a)
      || exists tag :: tag in c.ruleSet && tag in view && view[tag].containsDNSQueryType
    case Logical(_, _, a) => a.kind.Evaluate? || a.kind.Respond? || ActionDisablesLegacy(a)
    case UnknownType => false
  }

  ghost predicate HasStrategy(x: Rule) {
    !x.UnknownType? && ActionHasStrategy(x.action)
  }

  ghost predicate Needs(x: Rule, view: RuleSets) {
    || HasStrategy(x)
    || (x.Default? &&
        (|| NeedsLegacyFromAddressFilter(x.conditions)
         || (!x.conditions.ruleSetIPCIDRMatchSource &&
             exists tag :: tag in x.conditions.ruleSet && tag in view && view[tag].containsIPCIDR)))
  }

  ghost predicate NeedsResponse(x: Rule) {
    !x.UnknownType? && (x.action.kind.Respond? || (x.Default? && x.conditions.matchResponse))
  }

  /** The rule set exists and can match before a response is known: it is not made of IPs only. */
  ghost predicate Matchable(tag: string, view: RuleSets) {
    tag in view && (view[tag].containsIPCIDR ==> view[tag].containsNonIPCIDR)
  }

  ghost predicate Acceptable(x: Rule, view: RuleSets) {
    x.Default? ==>
      var c := x.conditions;
      && (HasResponseMatchFields(c) || c.ipCIDR || c.ipIsPrivate || c.ipAcceptAny ==> c.matchResponse)
      && !c.ruleSetIPCIDRAcceptEmpty
      && (c.matchResponse || forall tag :: tag in c.ruleSet ==> Matchable(tag, view))
  }

  /** `r` is `flags` with everything the rules in `nodes` ask for merged in. */
  ghost predicate Summarises(r: Result<Flags, Error>, flags: Flags, nodes: set<Rule>, view: RuleSets) {
    && (r.Ok? <==> forall x :: x in nodes ==> Resolves(x, view))
    && (r.Ok? ==>
          && (r.value.disabled <==> flags.disabled || exists x :: x in nodes && Disables(x, view))
          && (r.value.needed <==> flags.needed || exists x :: x in nodes && Needs(x, view))
          && (r.value.neededFromStrategy <==>
                flags.neededFromStrategy || exists x :: x in nodes && HasStrategy(x)))
  }

  // ----- The analysis sees every depth -----

  lemma {:induction false} SetRequirementsMeaning(c: Conditions, tags: seq<string>, flags: Flags, sets: RuleSets,
                                                  overrides: RuleSets)
    ensures var r, view := SetRequirements(c, tags, flags, sets, overrides), sets + overrides;
      && (r.Ok? <==> forall tag :: tag in tags ==> tag in view)
      && (r.Ok? ==>
            && (r.value.disabled <==>
                  flags.disabled || exists tag :: tag in tags && tag in view && view[tag].containsDNSQueryType)
            && (r.value.needed <==>
                  || flags.needed
                  || (!c.ruleSetIPCIDRMatchSource &&
                      exists tag :: tag in tags && tag in view && view[tag].containsIPCIDR))
            && r.value.neededFromStrategy == flags.neededFromStrategy)
    decreases |tags|
  {
    if tags != [] {
      var view := sets + overrides;
      assert tags == [tags[0]] + tags[1..];
      if tags[0] in view {
        var m := view[tags[0]];
        SetRequirementsMeaning(c, tags[1..],
          flags.(disabled := flags.disabled || m.containsDNSQueryType,
                 needed := flags.needed || (!c.ruleSetIPCIDRMatchSource && m.containsIPCIDR)),
          sets, overrides);
      }
    }
  }

  lemma {:induction false} RuleRequirementsMeaning(rule: Rule, sets: RuleSets, overrides: RuleSets)
    ensures Summarises(RuleRequirements(rule, sets, overrides), NO_FLAGS, Nodes(rule), sets + overrides)
    decreases rule, 1
  {
    match rule
    case Default(c, a) =>
      assert Nodes(rule) == {rule};
      var strategy := ActionHasStrategy(a);
      SetRequirementsMeaning(c, c.ruleSet,
        Flags(DefaultDisablesLegacy(c, a) || ActionDisablesLegacy(a),
              NeedsLegacyFromAddressFilter(c) || strategy, strategy), sets, overrides);
    case Logical(_, rules, a) =>
      var strategy := ActionHasStrategy(a);
      ForestRequirementsMeaning(rules,
        Flags(a.kind.Evaluate? || a.kind.Respond? || ActionDisablesLegacy(a), strategy, strategy),
        sets, overrides);
      assert Nodes(rule) == {rule} + AllNodes(rules);
    case UnknownType =>
  }

  /** Flags are computed as if every rule of the forest, at any depth, had been asked directly. */
  lemma {:induction false} ForestRequirementsMeaning(rules: seq<Rule>, flags: Flags, sets: RuleSets,
                                                     overrides: RuleSets)
    ensures Summarises(ForestRequirements(rules, flags, sets, overrides), flags, AllNodes(rules), sets + overrides)
    decreases rules, 0
  {
    if rules != [] {
      RuleRequirementsMeaning(rules[0], sets, overrides);
      var r := RuleRequirements(rules[0], sets, overrides);
      if r.Ok? {
        ForestRequirementsMeaning(rules[1..], flags.Merge(r.value), sets, overrides);
      }
    }
  }

  /**
   The mode, exactly: legacy if and only if some rule needs it and none rules it out; refused
   if and only if a rule set is missing, or one rule has a strategy while another rules legacy out.
   */
  lemma LegacyModeMeaning(rules: seq<Rule>, sets: RuleSets, overrides: RuleSets)
    ensures var r, view, nodes := ResolveLegacyMode(rules, sets, overrides), sets + overrides, AllNodes(rules);
      && (r.Ok? <==>
            && (forall x :: x in nodes ==> Resolves(x, view))
            && ((exists x :: x in nodes && Disables(x, view)) ==> forall x :: x in nodes ==> !HasStrategy(x)))
      && (r.Ok? ==>
            && (r.value.1.disabled <==> exists x :: x in nodes && Disables(x, view))
            && (r.value.0 <==>
                  && (exists x :: x in nodes && Needs(x, view))
                  && (forall x :: x in nodes ==> !Disables(x, view))))
  {
    ForestRequirementsMeaning(rules, NO_FLAGS, sets, overrides);
  }

  // ----- Validation sees every depth -----

  lemma {:induction false} ValidateSetsMeaning(tags: seq<string>, sets: RuleSets, overrides: RuleSets)
    ensures ValidateSets(tags, sets, overrides).None? <==>
      forall tag :: tag in tags ==> Matchable(tag, sets + overrides)
    decreases |tags|
  {
    if tags != [] {
      assert forall tag :: tag in tags <==> tag == tags[0] || tag in tags[1..];
      ValidateSetsMeaning(tags[1..], sets, overrides);
      assert tags[0] in tags;
      assert ValidateSets(tags, sets, overrides).None? <==>
        Matchable(tags[0], sets + overrides) && ValidateSets(tags[1..], sets, overrides).None?;
    }
  }

  /** The rule set holds addresses and nothing else. */
  predicate PureIP(tag: string, view: RuleSets) {
    tag in view && view[tag].containsIPCIDR && !view[tag].containsNonIPCIDR
  }

  /**
   The comment at the check says that a rule is refused only when every set it names is made of
   addresses. For sets that exist, the code keeps to that if and only if all of them are, or none is.
   */
  lemma RefusesOnlyPureRulesIff(tags: seq<string>, sets: RuleSets, overrides: RuleSets)
    requires forall tag :: tag in tags ==> tag in sets + overrides
    ensures var view := sets + overrides;
      var allPure := forall tag :: tag in tags ==> PureIP(tag, view);
      var nonePure := forall tag :: tag in tags ==> !PureIP(tag, view);
      && (ValidateSets(tags, sets, overrides).Some? <==> !nonePure)
      && ((ValidateSets(tags, sets, overrides).Some? ==> allPure) <==> allPure || nonePure)
  {
    var view := sets + overrides;
    ValidateSetsMeaning(tags, sets, overrides);
    assert forall tag :: tag in tags ==> (Matchable(tag, view) <==> !PureIP(tag, view));
  }

  /** Of two sets, one of addresses and one of domains, the first is enough to refuse the rule. */
  lemma OnePureSetIsEnough()
    ensures var sets: RuleSets := map["a" := Metadata(true, false, false), "b" := Metadata(false, true, false)];
      && ValidateSets(["a", "b"], sets, map[]) == Some(AddressFilterNeedsLegacyMode)
      && PureIP("a", sets) && !PureIP("b", sets)
  {
  }

  ghost predicate Validates(r: Result<bool, Error>, prior: bool, nodes: set<Rule>, view: RuleSets) {
    && (r.Ok? <==> forall x :: x in nodes ==> Acceptable(x, view))
    && (r.Ok? ==> (r.value <==> prior || exists x :: x in nodes && NeedsResponse(x)))
  }

  lemma {:induction false} ValidateTreeMeaning(rule: Rule, sets: RuleSets, overrides: RuleSets)
    ensures Validates(ValidateTree(rule, sets, overrides), false, Nodes(rule), sets + overrides)
    decreases rule, 1
  {
    match rule
    case Default(c, a) =>
      assert Nodes(rule) == {rule};
      ValidateSetsMeaning(c.ruleSet, sets, overrides);
    case Logical(_, rules, a) =>
      ValidateSubtreesMeaning(rules, a.kind.Respond?, sets, overrides);
      assert Nodes(rule) == {rule} + AllNodes(rules);
    case UnknownType =>
  }

  lemma {:induction false} ValidateSubtreesMeaning(rules: seq<Rule>, prior: bool, sets: RuleSets, overrides: RuleSets)
    ensures Validates(ValidateSubtrees(rules, prior, sets, overrides), prior, AllNodes(rules), sets + overrides)
    decreases rules, 0
  {
    if rules != [] {
      ValidateTreeMeaning(rules[0], sets, overrides);
      var r := ValidateTree(rules[0], sets, overrides);
      if r.Ok? {
        ValidateSubtreesMeaning(rules[1..], prior || r.value, sets, overrides);
      }
    }
  }

  /** Some top-level rule before `i` is an evaluate rule. */
  ghost predicate EvaluateBefore(rules: seq<Rule>, i: nat)
    requires i <= |rules|
  {
    exists j :: 0 <= j < i && ActionType(rules[j]).Evaluate?
  }

  ghost predicate WellPlaced(rules: seq<Rule>, i: nat, view: RuleSets)
    requires i < |rules|
  {
    forall x :: x in Nodes(rules[i]) ==>
      Acceptable(x, view) && (NeedsResponse(x) ==> EvaluateBefore(rules, i))
  }

  lemma {:induction false} ValidateFromMeaning(rules: seq<Rule>, i: nat, sets: RuleSets, overrides: RuleSets)
    requires i <= |rules|
    ensures ValidateFrom(rules, i, EvaluateBefore(rules, i), sets, overrides).None? <==>
      forall k :: i <= k < |rules| ==> WellPlaced(rules, k, sets + overrides)
    decreases |rules| - i
  {
    if i < |rules| {
      ValidateTreeMeaning(rules[i], sets, overrides);
      ValidateFromMeaning(rules, i + 1, sets, overrides);
      assert EvaluateBefore(rules, i + 1) <==> EvaluateBefore(rules, i) || ActionType(rules[i]).Evaluate?;
      var r := ValidateTree(rules[i], sets, overrides);
      assert WellPlaced(rules, i, sets + overrides) <==> r.Ok? && (r.value ==> EvaluateBefore(rules, i));
    }
  }

  /**
   A rule list passes validation if and only if every rule, at any depth, is acceptable without
   legacy mode, and every rule that matches on a response or responds with one, at any depth,
   sits below a top-level rule that some top-level evaluate rule precedes.
   */
  lemma ValidationMeaning(rules: seq<Rule>, sets: RuleSets, overrides: RuleSets)
    ensures ValidateDisabled(rules, sets, overrides).None? <==>
      forall i :: 0 <= i < |rules| ==> WellPlaced(rules, i, sets + overrides)
  {
    assert !EvaluateBefore(rules, 0);
    ValidateFromMeaning(rules, 0, sets, overrides);
  }

  // ----- What the mode promises the interpreters -----

  /** Without legacy mode no rule at any depth has a strategy. */
  lemma NonLegacyHasNoStrategy(rules: seq<Rule>, sets: RuleSets, overrides: RuleSets)
    requires var r := ResolveLegacyMode(rules, sets, overrides); r.Ok? && !r.value.0
    ensures forall x :: x in AllNodes(rules) ==> !HasStrategy(x)
  {
    LegacyModeMeaning(rules, sets, overrides);
    assert forall x :: HasStrategy(x) ==> Needs(x, sets + overrides);
  }

  /** In legacy mode no rule at any depth evaluates, responds, or touches the optimistic cache. */
  lemma LegacyHasNoEvaluate(rules: seq<Rule>, sets: RuleSets, overrides: RuleSets)
    requires var r := ResolveLegacyMode(rules, sets, overrides); r.Ok? && r.value.0
    ensures forall x :: x in AllNodes(rules) && !x.UnknownType? ==>
      !x.action.kind.Evaluate? && !x.action.kind.Respond? && !ActionDisablesLegacy(x.action)
  {
    LegacyModeMeaning(rules, sets, overrides);
    forall x | x in AllNodes(rules) && !x.UnknownType?
      ensures !x.action.kind.Evaluate? && !x.action.kind.Respond? && !ActionDisablesLegacy(x.action)
    {
      assert !Disables(x, sets + overrides);
    }
  }

  lemma {:induction false} TopLevelNodes(rules: seq<Rule>, i: nat)
    requires i < |rules|
    ensures rules[i] in AllNodes(rules)
  {
    if i > 0 {
      TopLevelNodes(rules[1..], i - 1);
    }
  }

  // ----- Rule-set updates on a running router -----

  /** The chosen mode fits the rules under the current metadata. */
  ghost predicate Sound(rules: seq<Rule>, legacy: bool, sets: RuleSets) {
    var r := ResolveLegacyMode(rules, sets, map[]);
    && r.Ok?
    && (if legacy then !r.value.1.disabled
        else !r.value.0 && ValidateDisabled(rules, sets, map[]).None?)
  }

  /** The mode the analysis picks for this metadata. */
  predicate NeedsLegacy(rules: seq<Rule>, sets: RuleSets) {
    var r := ResolveLegacyMode(rules, sets, map[]);
    r.Ok? && r.value.0
  }

  /** The rules are sound in the mode the analysis picks for them. */
  ghost predicate Resolvable(rules: seq<Rule>, sets: RuleSets) {
    Sound(rules, NeedsLegacy(rules, sets), sets)
  }

  /**
   When a mode picked earlier fits metadata for which the rules are sound in some mode: legacy mode
   exactly if no rule rules it out, the other exactly if the analysis would pick it again.
   */
  lemma EarlierModeFitsIff(rules: seq<Rule>, sets: RuleSets)
    requires Resolvable(rules, sets)
    ensures Sound(rules, true, sets) <==> forall x :: x in AllNodes(rules) ==> !Disables(x, sets)
    ensures Sound(rules, false, sets) <==> !NeedsLegacy(rules, sets)
  {
    assert sets + map[] == sets;
    LegacyModeMeaning(rules, sets, map[]);
  }

  /** ValidateRuleSetMetadataUpdate on a started router that is not closing. */
  function ValidateUpdate(rules: seq<Rule>, legacy: bool, sets: RuleSets, tag: string,
                          metadata: Metadata): Option<Error> {
    var overrides := map[tag := metadata];
    match ResolveLegacyMode(rules, sets, overrides)
    case Err(e) => Some(e)
    case Ok((candidate, flags)) =>
      if legacy then
        if !candidate && flags.disabled then
          var e := ValidateDisabled(rules, sets, overrides);
          if e.Some? then e else Some(AddressFilterNeedsLegacyMode)
        else None
      else if candidate then Some(AddressFilterNeedsLegacyMode)
      else ValidateDisabled(rules, sets, overrides)
  }

  /** Whether the analysis looks at a table or at overrides over a table makes no difference. */
  lemma OverridesActLikeTheTable(rules: seq<Rule>, sets: RuleSets, overrides: RuleSets)
    ensures var a, b := ResolveLegacyMode(rules, sets, overrides), ResolveLegacyMode(rules, sets + overrides, map[]);
      && (a.Ok? <==> b.Ok?)
      && (a.Ok? ==> a.value.0 == b.value.0 && a.value.1.disabled == b.value.1.disabled)
    ensures ValidateDisabled(rules, sets, overrides).None?
       <==> ValidateDisabled(rules, sets + overrides, map[]).None?
  {
    assert sets + overrides + map[] == sets + overrides;
    LegacyModeMeaning(rules, sets, overrides);
    LegacyModeMeaning(rules, sets + overrides, map[]);
    ValidationMeaning(rules, sets, overrides);
    ValidationMeaning(rules, sets + overrides, map[]);
  }

  /** An update is accepted if and only if the mode in force fits the metadata it would install. */
  lemma AcceptedIffSound(rules: seq<Rule>, legacy: bool, sets: RuleSets, tag: string, metadata: Metadata)
    ensures ValidateUpdate(rules, legacy, sets, tag, metadata).None?
       <==> Sound(rules, legacy, sets[tag := metadata])
  {
    assert sets + map[tag := metadata] == sets[tag := metadata];
    OverridesActLikeTheTable(rules, sets, map[tag := metadata]);
    LegacyModeMeaning(rules, sets, map[tag := metadata]);
  }

  datatype Update = Update(tag: string, metadata: Metadata)

  /** Updates arriving one after the other, each installed if it is accepted. */
  function Install(rules: seq<Rule>, legacy: bool, sets: RuleSets, updates: seq<Update>): RuleSets
    decreases |updates|
  {
    if updates == [] then sets else
    var Update(tag, metadata) := updates[0];
    Install(rules, legacy,
      if ValidateUpdate(rules, legacy, sets, tag, metadata).None? then sets[tag := metadata] else sets,
      updates[1..])
  }

  /** Any sequence of serialised updates keeps the mode sound. */
  lemma {:induction false} UpdatesKeepSound(rules: seq<Rule>, legacy: bool, sets: RuleSets, updates: seq<Update>)
    requires Sound(rules, legacy, sets)
    ensures Sound(rules, legacy, Install(rules, legacy, sets, updates))
    decreases |updates|
  {
    if updates != [] {
      var Update(tag, metadata) := updates[0];
      AcceptedIffSound(rules, legacy, sets, tag, metadata);
      UpdatesKeepSound(rules, legacy,
        if ValidateUpdate(rules, legacy, sets, tag, metadata).None? then sets[tag := metadata] else sets,
        updates[1..]);
    }
  }

  /**
   In legacy mode serialisation is not even needed: any updates that were each accepted against
   the same old metadata can be installed together.
   */
  lemma LegacyUpdatesCombine(rules: seq<Rule>, sets: RuleSets, updates: RuleSets)
    requires Sound(rules, true, sets)
    requires forall tag :: tag in updates ==> ValidateUpdate(rules, true, sets, tag, updates[tag]).None?
    ensures Sound(rules, true, sets + updates)
  {
    var all := sets + updates;
    assert all + map[] == all && sets + map[] == sets;
    LegacyModeMeaning(rules, all, map[]);
    LegacyModeMeaning(rules, sets, map[]);
    forall x | x in AllNodes(rules) ensures !Disables(x, all) && Resolves(x, all) {
      assert !Disables(x, sets) && Resolves(x, sets);
      forall tag | tag in updates ensures !Disables(x, sets[tag := updates[tag]]) {
        AcceptedDisablesNothing(rules, sets, tag, updates[tag], x);
      }
      if Disables(x, all) {
        DisabledByOne(x, sets, updates);
      }
    }
  }

  lemma AcceptedDisablesNothing(rules: seq<Rule>, sets: RuleSets, tag: string, metadata: Metadata, x: Rule)
    requires ValidateUpdate(rules, true, sets, tag, metadata).None? && x in AllNodes(rules)
    ensures !Disables(x, sets[tag := metadata])
  {
    var one := sets[tag := metadata];
    assert one + map[] == one;
    AcceptedIffSound(rules, true, sets, tag, metadata);
    LegacyModeMeaning(rules, one, map[]);
  }

  /** A rule that rules legacy mode out under all updates does so under one of them, or under none. */
  lemma DisabledByOne(x: Rule, sets: RuleSets, updates: RuleSets)
    requires Disables(x, sets + updates)
    ensures Disables(x, sets) || exists tag :: tag in updates && Disables(x, sets[tag := updates[tag]])
  {
    var all := sets + updates;
    if !Disables(x, sets) {
      var tag :| tag in x.conditions.ruleSet && tag in all && all[tag].containsDNSQueryType;
      assert tag in updates && Disables(x, sets[tag := updates[tag]]);
    }
  }

  /** An update accepted without legacy mode leaves every rule where validation wants it. */
  lemma AcceptedIsWellPlaced(rules: seq<Rule>, sets: RuleSets, tag: string, metadata: Metadata, i: nat)
    requires i < |rules| && ValidateUpdate(rules, false, sets, tag, metadata).None?
    ensures WellPlaced(rules, i, sets[tag := metadata])
  {
    var one := sets[tag := metadata];
    assert one + map[] == one;
    AcceptedIffSound(rules, false, sets, tag, metadata);
    ValidationMeaning(rules, one, map[]);
  }

  /**
   Without legacy mode, updates that were each accepted against the same old metadata can be
   installed together if and only if some rule still rules legacy mode out under all of them,
   or no rule needs it: the validator's own test, made on the metadata after the others.
   */
  lemma NonLegacyUpdatesCombine(rules: seq<Rule>, sets: RuleSets, updates: RuleSets)
    requires Sound(rules, false, sets)
    requires forall tag :: tag in updates ==> ValidateUpdate(rules, false, sets, tag, updates[tag]).None?
    ensures var all := sets + updates;
      Sound(rules, false, all) <==>
        || (exists x :: x in AllNodes(rules) && Disables(x, all))
        || (forall x :: x in AllNodes(rules) ==> !Needs(x, all))
  {
    var all := sets + updates;
    assert all + map[] == all && sets + map[] == sets;
    LegacyModeMeaning(rules, sets, map[]);
    LegacyModeMeaning(rules, all, map[]);
    NonLegacyHasNoStrategy(rules, sets, map[]);
    forall x | x in AllNodes(rules) ensures Resolves(x, all) {
      assert Resolves(x, sets);
    }
    ValidationMeaning(rules, sets, map[]);
    ValidationMeaning(rules, all, map[]);
    forall i | 0 <= i < |rules| ensures WellPlaced(rules, i, all) {
      assert WellPlaced(rules, i, sets);
      forall tag | tag in updates ensures WellPlaced(rules, i, sets[tag := updates[tag]]) {
        AcceptedIsWellPlaced(rules, sets, tag, updates[tag], i);
      }
      WellPlacedTogether(rules, i, sets, updates);
    }
  }

  lemma WellPlacedTogether(rules: seq<Rule>, i: nat, sets: RuleSets, updates: RuleSets)
    requires i < |rules| && WellPlaced(rules, i, sets)
    requires forall tag :: tag in updates ==> WellPlaced(rules, i, sets[tag := updates[tag]])
    ensures WellPlaced(rules, i, sets + updates)
  {
    forall x, tag | x in Nodes(rules[i]) && x.Default? && !x.conditions.matchResponse && tag in x.conditions.ruleSet
      ensures Matchable(tag, sets + updates)
    {
      if tag in updates {
        assert Acceptable(x, sets[tag := updates[tag]]);
        assert Matchable(tag, sets[tag := updates[tag]]);
      } else {
        assert Acceptable(x, sets);
        assert Matchable(tag, sets);
      }
    }
    forall x | x in Nodes(rules[i]) ensures Acceptable(x, sets + updates) {
      assert Acceptable(x, sets);
    }
  }

  /** A route rule over the rule sets `a` and `b`, and nothing else. */
  const TWO_SETS: Rule := Default(
    Conditions(["a", "b"], false, false, false, false, false, false, false, false, 0, false, false, true),
    NO_ACTION.(kind := Route, server := "s"))

  /** What the analysis sees in that rule. */
  lemma TwoSetsAnalysis(a: Metadata, b: Metadata)
    requires a.containsNonIPCIDR && b.containsNonIPCIDR
    ensures var view: RuleSets := map["a" := a, "b" := b];
      && view + map[] == view && AllNodes([TWO_SETS]) == {TWO_SETS}
      && Resolves(TWO_SETS, view) && !HasStrategy(TWO_SETS)
      && (Disables(TWO_SETS, view) <==> a.containsDNSQueryType || b.containsDNSQueryType)
      && (Needs(TWO_SETS, view) <==> a.containsIPCIDR || b.containsIPCIDR)
      && WellPlaced([TWO_SETS], 0, view)
  {
    var view: RuleSets := map["a" := a, "b" := b];
    assert view + map[] == view;
    assert Nodes(TWO_SETS) == {TWO_SETS};
    var tags := TWO_SETS.conditions.ruleSet;
    assert tags[0] == "a" && tags[1] == "b" && "a" in tags && "b" in tags;
  }

  lemma TwoSetsSound(a: Metadata, b: Metadata)
    requires a.containsNonIPCIDR && b.containsNonIPCIDR
    ensures Sound([TWO_SETS], false, map["a" := a, "b" := b]) <==>
      a.containsDNSQueryType || b.containsDNSQueryType || !(a.containsIPCIDR || b.containsIPCIDR)
  {
    var view: RuleSets := map["a" := a, "b" := b];
    TwoSetsAnalysis(a, b);
    LegacyModeMeaning([TWO_SETS], view, map[]);
    ValidationMeaning([TWO_SETS], view, map[]);
  }

  /**
   Without legacy mode it is needed: of two updates, each accepted against the same old
   metadata, one drops the only query-type rule and the other adds an IP rule; together they
   turn the rules into rules that want legacy mode.
   */
  lemma UnserialisedUpdatesCanFlipTheMode()
    ensures exists rules, sets, a: Update, b: Update ::
      && Sound(rules, false, sets) && a.tag != b.tag
      && ValidateUpdate(rules, false, sets, a.tag, a.metadata).None?
      && ValidateUpdate(rules, false, sets, b.tag, b.metadata).None?
      && !Sound(rules, false, sets[a.tag := a.metadata][b.tag := b.metadata])
  {
    var query, plain, mixed := Metadata(false, true, true), Metadata(false, true, false), Metadata(true, true, false);
    var sets: RuleSets := map["a" := query, "b" := plain];
    var a, b := Update("a", plain), Update("b", mixed);
    TwoSetsSound(query, plain);
    TwoSetsSound(plain, plain);
    TwoSetsSound(query, mixed);
    TwoSetsSound(plain, mixed);
    AcceptedIffSound([TWO_SETS], false, sets, "a", plain);
    AcceptedIffSound([TWO_SETS], false, sets, "b", mixed);
    assert sets["a" := plain] == map["a" := plain, "b" := plain];
    assert sets["b" := mixed] == map["a" := query, "b" := mixed];
    assert sets[a.tag := a.metadata][b.tag := b.metadata] == map["a" := plain, "b" := mixed];
    assert Sound([TWO_SETS], false, sets) && a.tag != b.tag;
  }
}

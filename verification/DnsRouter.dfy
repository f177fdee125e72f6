/**
 The DNS router: it builds rules from options, picks the interpreter, answers queries and
 vets rule-set updates while it runs.
 */
module DnsRouter {
  import opened Wrappers
  import opened DnsRules
  import opened DnsRuleMode
  import opened TransportManager
  import opened DnsRuleEngine
  import opened DnsLegacyEngine

  // ----- Building rules -----

  /** NewDNSRuleAction. */
  function NewAction(a: Action): RuntimeAction {
    match a.kind
    case Unset => NoAction
    case Route => DoRoute(a.server, a.route)
    case Evaluate => DoEvaluate(a.server, a.route)
    case Respond => DoRespond
    case SetOptions => DoSetOptions(a.routeOptions)
    case Reject => DoReject(a.reject.RejectDrop?)
    case Predefined => DoPredefined
  }

  /** An action configured on a rule below the top level, anywhere in the tree. */
  predicate HasNestedAction(rule: Rule, nested: bool) {
    || (nested && !rule.UnknownType? && rule.action != NO_ACTION)
    || (rule.Logical? && exists sub :: sub in rule.rules && HasNestedAction(sub, true))
  }

  predicate Blank(c: Conditions) {
    && c.ruleSet == [] && !c.ruleSetIPCIDRMatchSource && !c.ruleSetIPCIDRAcceptEmpty && !c.matchResponse
    && !c.ipCIDR && !c.ipIsPrivate && !c.ipAcceptAny && !HasResponseMatchFields(c)
    && c.ipVersion == 0 && !c.queryType && !c.others
  }

  /** IsValid: a rule says something, and so do all rules below it. */
  function ValidityError(rule: Rule): Option<Error>
    decreases rule, 1
  {
    match rule
    case Default(c, a) => if Blank(c) && a == NO_ACTION then Some(MissingConditions) else None
    case Logical(_, rules, _) => if rules == [] then Some(MissingConditions) else FirstValidityError(rules)
    case UnknownType => Some(UnknownNestedTypePanics)
  }

  function FirstValidityError(rules: seq<Rule>): Option<Error>
    decreases rules, 0
  {
    if rules == [] then None else
    var e := ValidityError(rules[0]);
    if e.Some? then e else FirstValidityError(rules[1..])
  }

  /** NewDNSRule. */
  function ConstructionError(rule: Rule, top: bool, legacy: bool): Option<Error>
    decreases rule, 1
  {
    if rule.UnknownType? then Some(UnknownRuleType)
    else if ValidityError(rule).Some? then ValidityError(rule)
    else if !top && rule.action.kind.Evaluate? then Some(EvaluateBelowTop)
    else if rule.action.kind.Reject? && rule.action.reject.RejectReply? then Some(UnsupportedReject)
    else if top && rule.action.server == "" &&
      (rule.action.kind.Unset? || rule.action.kind.Route? || rule.action.kind.Evaluate?) then Some(MissingServer)
    else if rule.Default? then
      if !rule.conditions.wellFormed then Some(MalformedConditions)
      else if rule.conditions.ruleSetIPCIDRAcceptEmpty && !legacy then Some(AcceptEmptyNeedsLegacyMode) else None
    else if rule.mode.UnknownMode? then Some(UnknownLogicalMode)
    else SubruleError(rule.rules, legacy)
  }

  function SubruleError(rules: seq<Rule>, legacy: bool): Option<Error>
    decreases rules, 0
  {
    if rules == [] then None else
    var e := ConstructionError(rules[0], false, legacy);
    if e.Some? then e else SubruleError(rules[1..], legacy)
  }

  ghost predicate EvaluatesAvoid(rules: seq<Rule>, table: Table) {
    forall i :: 0 <= i < |rules| && ActionType(rules[i]).Evaluate? && rules[i].action.server != "" ==>
      rules[i].action.server in table ==> !table[rules[i].action.server].kind.FakeIP?
  }

  /** validateEvaluateFakeIPRules. */
  method ValidateEvaluateFakeIP(rules: seq<Rule>, table: Table) returns (error: Option<Error>)
    ensures error.None? <==> EvaluatesAvoid(rules, table)
    ensures error.Some? ==>
      && error.value.EvaluateUsesFakeIP? && error.value.index < |rules|
      && ActionType(rules[error.value.index]).Evaluate?
  {
    for i := 0 to |rules|
      invariant EvaluatesAvoid(rules[..i], table)
    {
      if !ActionType(rules[i]).Evaluate? { continue; }
      var server := rules[i].action.server;
      if server == "" || server !in table || !table[server].kind.FakeIP? { continue; }
      return Some(EvaluateUsesFakeIP(i));
    }
    assert rules[..|rules|] == rules;
    return None;
  }

  /** Everything a build asks of the rules: their mode, their servers and their form. */
  ghost predicate Buildable(raw: seq<Rule>, sets: RuleSets, table: Table) {
    && (forall i :: 0 <= i < |raw| ==> !HasNestedAction(raw[i], false))
    && Resolvable(raw, sets)
    && EvaluatesAvoid(raw, table)
    && (forall i :: 0 <= i < |raw| ==> ConstructionError(raw[i], true, NeedsLegacy(raw, sets)).None?)
  }

  ghost predicate Actions(raw: seq<Rule>, rules: seq<RuntimeAction>) {
    && |rules| == |raw|
    && forall i :: 0 <= i < |raw| ==> !raw[i].UnknownType? && rules[i] == NewAction(raw[i].action)
  }

  /** buildRules, with its checks in order. `startOk` says which rules' own Start succeeds. */
  method BuildRules(raw: seq<Rule>, sets: RuleSets, table: Table, startRules: bool, startOk: nat -> bool)
    returns (rules: seq<RuntimeAction>, legacy: bool, error: Option<Error>)
    ensures error.None? <==>
      Buildable(raw, sets, table) && (startRules ==> forall i: nat :: i < |raw| ==> startOk(i))
    ensures error.None? ==> legacy == NeedsLegacy(raw, sets) && Actions(raw, rules)
    ensures error.Some? ==> rules == []
  {
    rules, legacy := [], false;
    for i := 0 to |raw|
      invariant forall j :: 0 <= j < i ==> !HasNestedAction(raw[j], false)
    {
      if HasNestedAction(raw[i], false) { return [], false, Some(NestedAction); }
    }
    var mode := ResolveLegacyMode(raw, sets, map[]);
    if mode.Err? { return [], false, Some(mode.error); }
    legacy := mode.value.0;
    if !legacy {
      error := ValidateDisabled(raw, sets, map[]);
      if error.Some? { return [], false, error; }
    }
    assert Resolvable(raw, sets);
    error := ValidateEvaluateFakeIP(raw, table);
    if error.Some? { return [], false, error; }
    for i := 0 to |raw|
      invariant |rules| == i
      invariant forall j :: 0 <= j < i ==>
        ConstructionError(raw[j], true, legacy).None? && rules[j] == NewAction(raw[j].action)
    {
      error := ConstructionError(raw[i], true, legacy);
      if error.Some? { return [], false, error; }
      rules := rules + [NewAction(raw[i].action)];
    }
    if startRules {
      for i := 0 to |rules|
        invariant forall j: nat :: j < i ==> startOk(j)
      {
        if !startOk(i) { return [], false, Some(RuleStartFailed(i)); }
      }
    }
    return rules, legacy, None;
  }

  /** The form of a rule depends on the mode only through one deprecated condition. */
  lemma {:induction false} ConstructionByMode(rule: Rule, top: bool, legacy: bool)
    ensures ConstructionError(rule, top, legacy).None? <==>
      && ConstructionError(rule, top, true).None?
      && (legacy || forall x :: x in Nodes(rule) && x.Default? ==> !x.conditions.ruleSetIPCIDRAcceptEmpty)
    decreases rule, 1
  {
    if rule.Logical? {
      SubruleByMode(rule.rules, legacy);
      assert Nodes(rule) == {rule} + AllNodes(rule.rules);
    } else {
      assert Nodes(rule) == {rule};
    }
  }

  lemma {:induction false} SubruleByMode(rules: seq<Rule>, legacy: bool)
    ensures SubruleError(rules, legacy).None? <==>
      && SubruleError(rules, true).None?
      && (legacy || forall x :: x in AllNodes(rules) && x.Default? ==> !x.conditions.ruleSetIPCIDRAcceptEmpty)
    decreases rules, 0
  {
    if rules != [] {
      ConstructionByMode(rules[0], false, legacy);
      SubruleByMode(rules[1..], legacy);
      assert AllNodes(rules) == Nodes(rules[0]) + AllNodes(rules[1..]);
    }
  }

  /**
   Rules that could be built keep their form whatever the metadata becomes, so long as the
   analysis still finds them sound in the mode it then picks.
   */
  lemma StaysBuildable(raw: seq<Rule>, sets: RuleSets, sets': RuleSets, table: Table)
    requires Buildable(raw, sets, table) && Resolvable(raw, sets')
    ensures Buildable(raw, sets', table)
  {
    var legacy, legacy' := NeedsLegacy(raw, sets), NeedsLegacy(raw, sets');
    ValidationMeaning(raw, sets', map[]);
    forall i | 0 <= i < |raw| ensures ConstructionError(raw[i], true, legacy').None? {
      ConstructionByMode(raw[i], true, legacy);
      ConstructionByMode(raw[i], true, legacy');
      if !legacy' {
        assert WellPlaced(raw, i, sets' + map[]);
        assert forall x :: x in Nodes(raw[i]) ==> Acceptable(x, sets' + map[]);
      }
    }
  }

  /** A build fits its interpreter: nothing it skips can occur in the rules it is given. */
  lemma BuiltRulesFitTheirMode(raw: seq<Rule>, sets: RuleSets, rules: seq<RuntimeAction>)
    requires Resolvable(raw, sets) && Actions(raw, rules)
    ensures NeedsLegacy(raw, sets) ==> LegacyOnly(rules)
    ensures !NeedsLegacy(raw, sets) ==> NoStrategies(rules)
  {
    forall i | 0 <= i < |raw| ensures raw[i] in AllNodes(raw) {
      TopLevelNodes(raw, i);
    }
    if NeedsLegacy(raw, sets) {
      LegacyHasNoEvaluate(raw, sets, map[]);
    } else {
      NonLegacyHasNoStrategy(raw, sets, map[]);
      forall i | 0 <= i < |rules| && (rules[i].DoRoute? || rules[i].DoEvaluate? || rules[i].DoSetOptions?)
        ensures rules[i].options.strategy.AsIs?
      {
        assert !HasStrategy(raw[i]);
      }
    }
  }

  /**
   With an accepted rule list, a respond rule that decides is preceded by an evaluate rule; so a
   missing response means none of those matched, or the last that did failed.
   */
  lemma RespondFollowsEvaluate(raw: seq<Rule>, sets: RuleSets, rules: seq<RuntimeAction>, k: nat)
    requires Sound(raw, false, sets) && Actions(raw, rules) && k < |rules| && rules[k].DoRespond?
    ensures exists j :: 0 <= j < k && rules[j].DoEvaluate?
  {
    ValidationMeaning(raw, sets, map[]);
    assert WellPlaced(raw, k, sets + map[]);
    assert raw[k] in Nodes(raw[k]) && NeedsResponse(raw[k]);
    assert EvaluateBefore(raw, k);
  }

  // ----- The router -----

  datatype Answered = BadQuestion | Closed | Done(outcome: Outcome)

  /** What buildRules made for a start that is not yet published. */
  datatype Build = Build(rules: seq<RuntimeAction>, legacy: bool)

  /** The rules hold nothing the interpreter of this mode ignores. */
  ghost predicate NothingIgnored(rules: seq<RuntimeAction>, legacy: bool) {
    if legacy then LegacyOnly(rules) else NoStrategies(rules)
  }

  ghost predicate EvaluateRulesAvoid(rules: seq<RuntimeAction>, table: Table) {
    forall i :: 0 <= i < |rules| && rules[i].DoEvaluate? && rules[i].server in table ==>
      !table[rules[i].server].kind.FakeIP?
  }

  // ----- The reverse mapping -----

  function Learn(known: map<Address, string>, records: seq<Address>, domain: string): map<Address, string> {
    if records == [] then known
    else Learn(known, records[..|records| - 1], domain)[records[|records| - 1] := domain]
  }

  lemma {:induction false} LearnMeaning(known: map<Address, string>, records: seq<Address>, domain: string, a: Address)
    ensures var r := Learn(known, records, domain);
      && (a in r <==> a in known || a in records)
      && (a in r ==> r[a] == if a in records then domain else known[a])
  {
    if records != [] {
      var rest, last := records[..|records| - 1], records[|records| - 1];
      LearnMeaning(known, rest, domain, a);
      assert records == rest + [last];
    }
  }

  // ----- Addresses of a lookup -----

  /** filterAddressesByQueryType. */
  function OfFamily(addresses: seq<Address>, v6: bool): seq<Address> {
    if addresses == [] then []
    else if addresses[0].v6 == v6 then [addresses[0]] + OfFamily(addresses[1..], v6)
    else OfFamily(addresses[1..], v6)
  }

  lemma {:induction false} OfFamilyMembers(addresses: seq<Address>, v6: bool, a: Address)
    ensures a in OfFamily(addresses, v6) <==> a in addresses && a.v6 == v6
  {
    if addresses != [] {
      OfFamilyMembers(addresses[1..], v6, a);
    }
  }

  /** lookupWithRulesType: the addresses of one family, none on any error. */
  function TypeAddresses(env: Env, outcome: Option<Outcome>, v6: bool): seq<Address> {
    if outcome.None? || outcome.value.Refused? then [] else
    var m := Response(env, outcome.value);
    if m.None? || m.value.rcode != RCODE_SUCCESS then [] else OfFamily(m.value.addresses, v6)
  }

  /** sortAddresses. */
  function Merge(strategy: Strategy, addresses4: seq<Address>, addresses6: seq<Address>): seq<Address> {
    if strategy.PreferIPv6? then addresses6 + addresses4 else addresses4 + addresses6
  }

  /** The addresses of an answer to both families at once, none on any error. */
  function DirectAddresses(env: Env, outcome: Outcome): seq<Address> {
    match outcome
    case FromServer(_, reply) => if reply.Answer? then reply.message.addresses else []
    case FixedAnswer(rule) => if env.fixed(rule).rcode == RCODE_SUCCESS then env.fixed(rule).records else []
    case _ => []
  }

  /**
   Merging keeps every address of both families, each family in its order and the preferred one in
   front.
   */
  lemma MergeMeaning(strategy: Strategy, a4: seq<Address>, a6: seq<Address>)
    requires AllOf(a4, false) && AllOf(a6, true)
    ensures var all := Merge(strategy, a4, a6);
      && OfFamily(all, false) == a4 && OfFamily(all, true) == a6
      && forall i, j :: 0 <= i < j < |all| && all[i].v6 != all[j].v6 ==> all[i].v6 == strategy.PreferIPv6?
  {
    if strategy.PreferIPv6? {
      Apart(a6, a4, true);
    } else {
      Apart(a4, a6, false);
    }
  }

  lemma Apart(front: seq<Address>, back: seq<Address>, v6: bool)
    requires AllOf(front, v6) && AllOf(back, !v6)
    ensures OfFamily(front + back, v6) == front && OfFamily(front + back, !v6) == back
  {
    FamiliesApart(front, v6);
    FamiliesApart(back, !v6);
    FamilyAppend(front, back, v6);
    FamilyAppend(front, back, !v6);
  }

  ghost predicate AllOf(addresses: seq<Address>, v6: bool) {
    forall i :: 0 <= i < |addresses| ==> addresses[i].v6 == v6
  }

  lemma TypeAddressesAreOfTheType(env: Env, outcome: Option<Outcome>, v6: bool)
    ensures AllOf(TypeAddresses(env, outcome, v6), v6)
  {
    var addresses := TypeAddresses(env, outcome, v6);
    forall i | 0 <= i < |addresses| ensures addresses[i].v6 == v6 {
      OfFamilyMembers(Response(env, outcome.value).value.addresses, v6, addresses[i]);
      assert addresses[i] in addresses;
    }
  }

  lemma {:induction false} FamiliesApart(addresses: seq<Address>, v6: bool)
    requires AllOf(addresses, v6)
    ensures OfFamily(addresses, v6) == addresses && OfFamily(addresses, !v6) == []
  {
    if addresses != [] {
      FamiliesApart(addresses[1..], v6);
      assert addresses == [addresses[0]] + addresses[1..];
    }
  }

  lemma {:induction false} FamilyAppend(a: seq<Address>, b: seq<Address>, v6: bool)
    ensures OfFamily(a + b, v6) == OfFamily(a, v6) + OfFamily(b, v6)
  {
    if a == [] {
      assert a + b == b;
    } else {
      assert (a + b)[1..] == a[1..] + b;
      FamilyAppend(a[1..], b, v6);
    }
  }

  class Router {
    const transport: Manager
    const defaultStrategy: Strategy
    var rawRules: seq<Rule>
    var rules: seq<RuntimeAction>
    var legacyDNSMode: bool
    var started: bool
    var closing: bool
    var ruleSets: RuleSets        // current metadata of the rule sets
    var pending: Option<Build>    // held by a Start between build and publication
    const reverse: bool           // addresses are mapped back to domains
    var domains: map<Address, string>
    ghost var builtFor: Table     // the server table the rules were checked against

    /** What holds whatever rule sets do: the interpreter in force ignores nothing. */
    ghost predicate Valid()
      reads this
    {
      && (!started ==> rules == [] && !legacyDNSMode)
      && (pending.Some? ==>
            && !started && Actions(rawRules, pending.value.rules)
            && NothingIgnored(pending.value.rules, pending.value.legacy)
            && EvaluateRulesAvoid(pending.value.rules, builtFor)
            && (!closing ==> Resolvable(rawRules, ruleSets)))
      && (started && !closing ==>
            && Actions(rawRules, rules) && NothingIgnored(rules, legacyDNSMode) && EvaluateRulesAvoid(rules, builtFor))
    }

    /** The mode in force fits the current metadata. */
    ghost predicate Fits()
      reads this
    {
      Sound(rawRules, legacyDNSMode, ruleSets)
    }

    constructor (transport: Manager, defaultStrategy: Strategy, ruleSets: RuleSets, reverse: bool)
      ensures Valid() && !started && !closing && pending.None? && this.transport == transport
      ensures this.ruleSets == ruleSets && this.reverse == reverse && domains == map[]
    {
      this.transport, this.defaultStrategy := transport, defaultStrategy;
      this.ruleSets, this.reverse := ruleSets, reverse;
      rawRules, rules, legacyDNSMode, started, closing, pending := [], [], false, false, false, None;
      builtFor, domains := map[], map[];
    }

    /** Initialize: takes the options and checks that they can be built. */
    method Initialize(raw: seq<Rule>) returns (error: Option<Error>)
      requires Valid() && !started && pending.None?
      modifies this`rawRules
      ensures Valid() && rawRules == raw
      ensures error.None? <==> Buildable(raw, ruleSets, transport.transportByTag)
    {
      rawRules := raw;
      var built, legacy;
      built, legacy, error := BuildRules(rawRules, ruleSets, transport.transportByTag, false, _ => true);
    }

    /** The first half of Start: build the rules, without the lock. */
    method BuildForStart(startOk: nat -> bool) returns (error: Option<Error>)
      requires Valid() && !started && pending.None?
      modifies this`pending, this`builtFor
      ensures Valid()
      ensures error.None? <==>
        && Buildable(rawRules, ruleSets, transport.transportByTag)
        && forall i: nat :: i < |rawRules| ==> startOk(i)
      ensures pending.Some? <==> error.None?
      ensures pending.Some? ==>
        builtFor == transport.transportByTag && pending.value.legacy == NeedsLegacy(rawRules, ruleSets)
    {
      var built, legacy;
      built, legacy, error := BuildRules(rawRules, ruleSets, transport.transportByTag, true, startOk);
      if error.Some? { return; }
      BuiltRulesFitTheirMode(rawRules, ruleSets, built);
      BuiltRulesAvoidFakeIP(rawRules, built, ruleSets, transport.transportByTag);
      pending, builtFor := Some(Build(built, legacy)), transport.transportByTag;
    }

    /**
     The second half: publish under the lock. Rule sets may have been reloaded in between; the mode
     then fits if and only if no rule rules it out, or the analysis would pick it again.
     */
    method PublishStart()
      requires Valid() && pending.Some?
      modifies this`rules, this`legacyDNSMode, this`started, this`pending
      ensures Valid() && pending.None? && (started <==> !closing)
      ensures started ==>
        && rules == old(pending).value.rules && legacyDNSMode == old(pending).value.legacy
        && (Fits() <==>
              if legacyDNSMode then forall x :: x in AllNodes(rawRules) ==> !Disables(x, ruleSets)
              else !NeedsLegacy(rawRules, ruleSets))
    {
      var build := pending.value;
      pending := None;
      if closing { return; }
      EarlierModeFitsIff(rawRules, ruleSets);
      rules, legacyDNSMode, started := build.rules, build.legacy, true;
    }

    /** Start at the stage that builds the rules, when no rule set is reloaded meanwhile. */
    method Start(startOk: nat -> bool) returns (error: Option<Error>)
      requires Valid() && !started && pending.None?
      modifies this`rules, this`legacyDNSMode, this`started, this`builtFor, this`pending
      ensures Valid() && pending.None?
      ensures error.None? <==>
        && Buildable(rawRules, ruleSets, transport.transportByTag)
        && forall i: nat :: i < |rawRules| ==> startOk(i)
      ensures started <==> error.None? && !closing
      ensures started ==>
        && builtFor == transport.transportByTag && Actions(rawRules, rules) && Fits()
        && legacyDNSMode == NeedsLegacy(rawRules, ruleSets)
    {
      error := BuildForStart(startOk);
      if error.Some? { return; }
      PublishStart();
    }

    method Close()
      requires Valid()
      modifies this`rules, this`closing
      ensures Valid() && closing && (!old(closing) ==> rules == [])
    {
      if closing { return; }
      closing, rules := true, [];
    }

    /** ValidateRuleSetMetadataUpdate. */
    method ValidateRuleSetMetadataUpdate(tag: string, metadata: Metadata) returns (error: Option<Error>)
      requires Valid()
      ensures rawRules != [] && started && !closing ==>
        (error.None? <==> Sound(rawRules, legacyDNSMode, ruleSets[tag := metadata]))
      ensures rawRules != [] && !started && !closing ==>
        (error.None? <==> Resolvable(rawRules, ruleSets[tag := metadata]))
      ensures rawRules == [] || closing ==> error.None?
    {
      if rawRules == [] || closing { return None; }
      var overrides := map[tag := metadata];
      var mode := ResolveLegacyMode(rawRules, ruleSets, overrides);
      if !started {
        assert ruleSets + overrides == ruleSets[tag := metadata];
        OverridesActLikeTheTable(rawRules, ruleSets, overrides);
        LegacyModeMeaning(rawRules, ruleSets, overrides);
        if mode.Err? { return Some(mode.error); }
        if !mode.value.0 {
          error := ValidateDisabled(rawRules, ruleSets, overrides);
          return;
        }
        return None;
      }
      AcceptedIffSound(rawRules, legacyDNSMode, ruleSets, tag, metadata);
      if mode.Err? { return Some(mode.error); }
      var candidate, flags := mode.value.0, mode.value.1;
      if legacyDNSMode {
        if !candidate && flags.disabled {
          error := ValidateDisabled(rawRules, ruleSets, overrides);
          if error.Some? { return; }
          return Some(AddressFilterNeedsLegacyMode);
        }
        return None;
      }
      if candidate { return Some(AddressFilterNeedsLegacyMode); }
      error := ValidateDisabled(rawRules, ruleSets, overrides);
    }

    /**
     A rule set reloads: its new metadata is installed if the router accepts it. A running router's
     mode fits afterwards if it did before; a router that can still be started stays so, also
     between build and publication.
     */
    method ReloadRuleSet(tag: string, metadata: Metadata) returns (error: Option<Error>)
      requires Valid()
      modifies this`ruleSets
      ensures Valid()
      ensures started && !closing && old(Fits()) ==> Fits()
      ensures started && !closing && rawRules != [] && error.None? ==> Fits()
      ensures !closing && !started && old(Buildable(rawRules, ruleSets, transport.transportByTag)) ==>
        Buildable(rawRules, ruleSets, transport.transportByTag)
      ensures ruleSets == if error.None? then old(ruleSets)[tag := metadata] else old(ruleSets)
    {
      error := ValidateRuleSetMetadataUpdate(tag, metadata);
      if error.None? {
        if rawRules == [] {
          NoRulesAreSound(legacyDNSMode, ruleSets, ruleSets[tag := metadata]);
        }
        ghost var table := transport.transportByTag;
        if !closing && !started && Buildable(rawRules, ruleSets, table) {
          StaysBuildable(rawRules, ruleSets, ruleSets[tag := metadata], table);
        }
        ruleSets := ruleSets[tag := metadata];
      }
    }

    /** The environment of a query, as far as the router determines it. */
    ghost predicate Serves(env: Env)
      reads this, transport
    {
      && env.table == transport.transportByTag
      && Some(env.fallback) == transport.defaultTransport
      && env.defaultStrategy == defaultStrategy
    }

    /** The one query a preset server is asked, without looking at any rule. */
    function PresetQuery(env: Env, preset: Transport, options: QueryOptions): Query
      reads this
    {
      Query(|rules|, preset, WithDefaultStrategy(env, options))
    }

    /**
     Exchange, for a message with `questions` questions and perhaps a preset server. Whatever the
     mode, without one the answer and the queries are those of a complete interpreter, which
     heeds every action and every option field.
     */
    method Exchange(env: Env, domain: string, questions: nat, preset: Option<Transport>, options: QueryOptions,
                    addressQuery: bool)
      returns (answer: Answered, queries: seq<Query>)
      requires Valid() && Serves(env)
      modifies this`domains
      ensures Valid()
      ensures answer.BadQuestion? <==> questions != 1
      ensures answer.Closed? <==> questions == 1 && closing
      ensures !answer.Done? ==> queries == []
      ensures answer.Done? ==>
        if preset.Some? then
          var query := PresetQuery(env, preset.value, options);
          answer.outcome == FromServer(preset.value, Ask(env, query)) && queries == [query]
        else if legacyDNSMode then
          FullyInterpreted(env, rules, Request(options, true, addressQuery, false), answer.outcome, queries)
        else Interpreted(env, rules, options, true, answer.outcome, queries)
      ensures domains == if answer.Done? then Remembered(env, domain, answer.outcome, old(domains)) else old(domains)
    {
      if questions != 1 { return BadQuestion, []; }
      if closing { return Closed, []; }
      var outcome;
      if preset.Some? {
        var query := PresetQuery(env, preset.value, options);
        outcome, queries := FromServer(preset.value, Ask(env, query)), [query];
      } else if !legacyDNSMode {
        outcome, queries := RunRules(env, options, true);
      } else {
        outcome, queries := RunLegacy(env, Request(options, true, addressQuery, false));
      }
      Remember(env, domain, outcome);
      answer := Done(outcome);
    }

    /**
     The reverse mapping after an answer: its addresses lead to the domain, but nothing is learnt
     from a fakeip server.
     */
    function Remembered(env: Env, domain: string, outcome: Outcome,
                        known: map<Address, string>): (r: map<Address, string>)
      ensures ServerOf(outcome).Some? && ServerOf(outcome).value.kind.FakeIP? ==> r == known
    {
      var response, server := Response(env, outcome), ServerOf(outcome);
      if !reverse || response.None? || (server.Some? && server.value.kind.FakeIP?) then known
      else Learn(known, response.value.records, domain)
    }

    method Remember(env: Env, domain: string, outcome: Outcome)
      modifies this`domains
      ensures domains == Remembered(env, domain, outcome, old(domains))
    {
      var response, server := Response(env, outcome), ServerOf(outcome);
      if !reverse || response.None? { return; }
      if server.Some? && server.value.kind.FakeIP? { return; }
      var records := response.value.records;
      for i := 0 to |records|
        invariant domains == Learn(old(domains), records[..i], domain)
      {
        assert records[..i + 1][..i] == records[..i];
        domains := domains[records[i] := domain];
      }
      assert records[..|records|] == records;
    }

    /** The interpreter in force without legacy mode, seen as the complete one. */
    method RunRules(env: Env, options: QueryOptions, allowFakeIP: bool) returns (outcome: Outcome, queries: seq<Query>)
      requires Valid() && !closing && !legacyDNSMode
      ensures Interpreted(env, rules, options, allowFakeIP, outcome, queries)
      ensures !allowFakeIP && EvaluatesAvoidFakeIP(env, rules) && !env.fallback.kind.FakeIP? ==>
        forall q :: q in queries ==> !q.transport.kind.FakeIP?
    {
      outcome, queries := ExchangeWithRules(env, rules, options, allowFakeIP);
      ghost var k :| FirstDecider(false, env, rules, options, allowFakeIP, k)
        && outcome == Decision(false, env, rules, options, k) && queries == AllQueries(false, env, rules, options, k);
      SkippingStrategyIsComplete(env, rules, options, allowFakeIP, k);
      if !allowFakeIP && EvaluatesAvoidFakeIP(env, rules) && !env.fallback.kind.FakeIP? {
        QueriesAvoidFakeIP(env, rules, options, k);
      }
    }

    /** The interpreter in force in legacy mode, seen as the complete one. */
    method RunLegacy(env: Env, req: Request) returns (outcome: Outcome, queries: seq<Query>)
      requires Valid() && !closing && legacyDNSMode
      ensures FullyInterpreted(env, rules, req, outcome, queries)
      ensures !req.allowFakeIP && !env.fallback.kind.FakeIP? ==> forall q :: q in queries ==> !q.transport.kind.FakeIP?
    {
      outcome, queries := LegacyQuery(env, rules, req);
      ghost var k :| FirstLegacyDecider(env, rules, req, k)
        && outcome == LegacyDecision(env, rules, req, k) && queries == LegacyQueries(env, rules, req, k);
      LegacyIsComplete(env, rules, req, k);
      if !req.allowFakeIP && !env.fallback.kind.FakeIP? {
        LegacyQueriesAvoidFakeIP(env, rules, req, k);
      }
    }

    /** resolveLookupStrategy. */
    function LookupStrategy(options: QueryOptions): Strategy {
      if !options.lookupStrategy.AsIs? then options.lookupStrategy
      else if !options.strategy.AsIs? then options.strategy else defaultStrategy
    }

    /**
     Lookup: `env4` and `env6` are the queries for A and AAAA; in legacy
     mode, and with a preset server, the first stands for the client's lookup of both. As long as
     the server table is the one the rules were built for, no rule leads to a fakeip server.
     */
    method Lookup(env4: Env, env6: Env, preset: Option<Transport>, options: QueryOptions)
      returns (addresses: seq<Address>, answer4: Option<Outcome>, answer6: Option<Outcome>, queries: seq<Query>)
      requires Valid() && transport.Valid() && Serves(env4) && Serves(env6)
      requires started && !closing ==> builtFor == transport.transportByTag
      ensures preset.None? ==> forall q :: q in queries ==> !q.transport.kind.FakeIP?
      ensures closing ==> addresses == [] && answer4.None? && answer6.None? && queries == []
      ensures !closing ==>
        addresses ==
          if preset.Some? || legacyDNSMode then
            (if answer4.Some? then DirectAddresses(env4, answer4.value) else [])
          else
            Merge(LookupStrategy(options), TypeAddresses(env4, answer4, false), TypeAddresses(env6, answer6, true))
      ensures !closing && preset.Some? ==>
        var query := PresetQuery(env4, preset.value, options);
        answer4 == Some(FromServer(preset.value, Ask(env4, query))) && answer6.None? && queries == [query]
      ensures !closing && preset.None? && legacyDNSMode ==>
        && answer4.Some? && answer6.None?
        && FullyInterpreted(env4, rules, Request(options, false, true, true), answer4.value, queries)
      ensures !closing && preset.None? && !legacyDNSMode ==>
        var strategy := LookupStrategy(options);
        var effective := options.(strategy := strategy);
        && (answer4.Some? <==> strategy != IPv6Only) && (answer6.Some? <==> strategy != IPv4Only)
        && exists q4, q6 ::
             && queries == q4 + q6
             && (if answer4.Some? then Interpreted(env4, rules, effective, false, answer4.value, q4) else q4 == [])
             && (if answer6.Some? then Interpreted(env6, rules, effective, false, answer6.value, q6) else q6 == [])
    {
      addresses, answer4, answer6, queries := [], None, None, [];
      if closing { return; }
      if preset.Some? {
        var query := PresetQuery(env4, preset.value, options);
        answer4, queries := Some(FromServer(preset.value, Ask(env4, query))), [query];
        addresses := DirectAddresses(env4, answer4.value);
        return;
      }
      var outcome;
      if legacyDNSMode {
        outcome, queries := RunLegacy(env4, Request(options, false, true, true));
        answer4, addresses := Some(outcome), DirectAddresses(env4, outcome);
        return;
      }
      assert EvaluatesAvoidFakeIP(env4, rules) && EvaluatesAvoidFakeIP(env6, rules);
      var strategy := LookupStrategy(options);
      var lookupOptions := if strategy.AsIs? then options else options.(strategy := strategy);
      var q4: seq<Query>, q6: seq<Query> := [], [];
      if strategy != IPv6Only {
        outcome, q4 := RunRules(env4, lookupOptions, false);
        answer4 := Some(outcome);
      }
      if strategy != IPv4Only {
        outcome, q6 := RunRules(env6, lookupOptions, false);
        answer6 := Some(outcome);
      }
      queries := q4 + q6;
      addresses := Merge(strategy, TypeAddresses(env4, answer4, false), TypeAddresses(env6, answer6, true));
    }
  }

  lemma BuiltRulesAvoidFakeIP(raw: seq<Rule>, rules: seq<RuntimeAction>, sets: RuleSets, table: Table)
    requires Buildable(raw, sets, table) && Actions(raw, rules)
    ensures EvaluateRulesAvoid(rules, table)
  {
    forall i | 0 <= i < |rules| && rules[i].DoEvaluate? && rules[i].server in table
      ensures !table[rules[i].server].kind.FakeIP?
    {
      assert ConstructionError(raw[i], true, NeedsLegacy(raw, sets)).None?;
      assert ActionType(raw[i]).Evaluate? && raw[i].action.server != "";
    }
  }

  lemma NoRulesAreSound(legacy: bool, sets: RuleSets, sets': RuleSets)
    ensures Sound([], legacy, sets) <==> Sound([], legacy, sets')
  {
  }
}

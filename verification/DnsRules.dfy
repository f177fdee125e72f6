/**
 DNS rules as configured, and the static analysis that picks one of two rule interpreters.

 A rule is a tree: conditions with an action, or a logical combination of rules. The analysis
 computes three flags over the whole forest and, from them, whether the router runs in
 legacy mode.
 */
module DnsRules {
  import opened Wrappers

  datatype Strategy = AsIs | PreferIPv4 | PreferIPv6 | IPv4Only | IPv6Only

  type Prefix = string

  datatype RouteOptions = RouteOptions(
    strategy: Strategy,
    timeout: nat,
    disableCache: bool,
    disableOptimisticCache: bool,
    rewriteTTL: Option<nat>,
    clientSubnet: Option<Prefix>)

  const NO_OPTIONS: RouteOptions := RouteOptions(AsIs, 0, false, false, None, None)

  /** The `action` key; `Unset` is the empty string. */
  datatype ActionKind = Unset | Route | Evaluate | Respond | SetOptions | Reject | Predefined

  datatype RejectMethod = RejectDefault | RejectDrop | RejectReply

  /** An action as configured: every kind carries all option groups, only some are read. */
  datatype Action = Action(
    kind: ActionKind,
    server: string,
    route: RouteOptions,           // read by Route and Evaluate
    routeOptions: RouteOptions,    // read by SetOptions
    reject: RejectMethod)

  const NO_ACTION: Action := Action(Unset, "", NO_OPTIONS, NO_OPTIONS, RejectDefault)

  /** The conditions of a default rule: those the analysis looks at, and whether there are others. */
  datatype Conditions = Conditions(
    ruleSet: seq<string>,
    ruleSetIPCIDRMatchSource: bool,
    ruleSetIPCIDRAcceptEmpty: bool,
    matchResponse: bool,
    ipCIDR: bool,
    ipIsPrivate: bool,
    ipAcceptAny: bool,
    responseRcode: bool,
    responseRecords: bool,         // response_answer, response_ns or response_extra
    ipVersion: nat,
    queryType: bool,
    others: bool,
    wellFormed: bool)              // every condition can be parsed

  datatype Mode = And | Or | UnknownMode

  datatype Rule =
    | Default(conditions: Conditions, action: Action)
    | Logical(mode: Mode, rules: seq<Rule>, action: Action)
    | UnknownType

  datatype Metadata = Metadata(
    containsIPCIDR: bool,
    containsNonIPCIDR: bool,
    containsDNSQueryType: bool)

  type RuleSets = map<string, Metadata>

  datatype Error =
    | RuleSetNotFound(tag: string)
    | StrategyWithoutLegacyMode
    | ResponseFieldsNeedMatchResponse
    | AddressFilterNeedsLegacyMode
    | AcceptEmptyNeedsLegacyMode
    | NoPrecedingEvaluate(index: nat)
    | EvaluateUsesFakeIP(index: nat)
    | NestedAction
    | EvaluateBelowTop
    | MissingServer
    | UnsupportedReject
    | UnknownRuleType
    | UnknownNestedTypePanics
    | MissingConditions
    | MalformedConditions
    | UnknownLogicalMode
    | RuleStartFailed(index: nat)

  // ----- What a single rule asks for -----

  predicate HasResponseMatchFields(c: Conditions) {
    c.responseRcode || c.responseRecords
  }

  predicate NeedsLegacyFromAddressFilter(c: Conditions) {
    c.ruleSetIPCIDRAcceptEmpty || (!c.matchResponse && (c.ipAcceptAny || c.ipCIDR || c.ipIsPrivate))
  }

  predicate ActionDisablesLegacy(a: Action) {
    match a.kind
    case Unset | Route | Evaluate => a.route.disableOptimisticCache
    case SetOptions => a.routeOptions.disableOptimisticCache
    case _ => false
  }

  predicate ActionHasStrategy(a: Action) {
    match a.kind
    case Unset | Route | Evaluate => !a.route.strategy.AsIs?
    case SetOptions => !a.routeOptions.strategy.AsIs?
    case _ => false
  }

  predicate DefaultDisablesLegacy(c: Conditions, a: Action) {
    c.matchResponse || HasResponseMatchFields(c) || a.kind.Evaluate? || a.kind.Respond?
    || c.ipVersion > 0 || c.queryType
  }

  // ----- The flags of a forest -----

  datatype Flags = Flags(disabled: bool, needed: bool, neededFromStrategy: bool) {
    function Merge(other: Flags): Flags {
      Flags(disabled || other.disabled, needed || other.needed,
            neededFromStrategy || other.neededFromStrategy)
    }
  }

  const NO_FLAGS: Flags := Flags(false, false, false)

  function Lookup(tag: string, sets: RuleSets, overrides: RuleSets): Result<Metadata, Error> {
    if tag in overrides then Ok(overrides[tag])
    else if tag in sets then Ok(sets[tag])
    else Err(RuleSetNotFound(tag))
  }

  /** The loop over `rule_set` in dnsRuleModeRequirementsInDefaultRule. */
  function SetRequirements(c: Conditions, tags: seq<string>, flags: Flags, sets: RuleSets, overrides: RuleSets)
    : Result<Flags, Error>
    decreases |tags|
  {
    if tags == [] then Ok(flags) else
    match Lookup(tags[0], sets, overrides)
    case Err(e) => Err(e)
    case Ok(m) =>
      SetRequirements(c, tags[1..],
        flags.(disabled := flags.disabled || m.containsDNSQueryType,
               needed := flags.needed || (!c.ruleSetIPCIDRMatchSource && m.containsIPCIDR)),
        sets, overrides)
  }

  function DefaultRequirements(c: Conditions, a: Action, sets: RuleSets, overrides: RuleSets): Result<Flags, Error> {
    var strategy := ActionHasStrategy(a);
    SetRequirements(c, c.ruleSet,
      Flags(DefaultDisablesLegacy(c, a) || ActionDisablesLegacy(a),
            NeedsLegacyFromAddressFilter(c) || strategy, strategy),
      sets, overrides)
  }

  function RuleRequirements(rule: Rule, sets: RuleSets, overrides: RuleSets): Result<Flags, Error>
    decreases rule, 1
  {
    match rule
    case Default(c, a) => DefaultRequirements(c, a, sets, overrides)
    case Logical(_, rules, a) =>
      var strategy := ActionHasStrategy(a);
      ForestRequirements(rules,
        Flags(a.kind.Evaluate? || a.kind.Respond? || ActionDisablesLegacy(a), strategy, strategy),
        sets, overrides)
    case UnknownType => Ok(NO_FLAGS)
  }

  /** Merges the flags of `rules`, in order, into `flags`. */
  function ForestRequirements(rules: seq<Rule>, flags: Flags, sets: RuleSets, overrides: RuleSets): Result<Flags, Error>
    decreases rules, 0
  {
    if rules == [] then Ok(flags) else
    match RuleRequirements(rules[0], sets, overrides)
    case Err(e) => Err(e)
    case Ok(f) => ForestRequirements(rules[1..], flags.Merge(f), sets, overrides)
  }

  /** resolveLegacyDNSMode: the mode, with the flags it was derived from. */
  function ResolveLegacyMode(rules: seq<Rule>, sets: RuleSets, overrides: RuleSets): Result<(bool, Flags), Error> {
    match ForestRequirements(rules, NO_FLAGS, sets, overrides)
    case Err(e) => Err(e)
    case Ok(flags) =>
      if flags.disabled && flags.neededFromStrategy then Err(StrategyWithoutLegacyMode)
      else Ok((!flags.disabled && flags.needed, flags))
  }

  // ----- Validation of a forest that runs without legacy mode -----

  function ValidateSets(tags: seq<string>, sets: RuleSets, overrides: RuleSets): Option<Error>
    decreases |tags|
  {
    if tags == [] then None else
    match Lookup(tags[0], sets, overrides)
    case Err(e) => Some(e)
    case Ok(m) =>
      if m.containsIPCIDR && !m.containsNonIPCIDR then Some(AddressFilterNeedsLegacyMode)
      else ValidateSets(tags[1..], sets, overrides)
  }

  /** On success: whether the rule needs an evaluated response to exist before it. */
  function ValidateDefault(c: Conditions, a: Action, sets: RuleSets, overrides: RuleSets): Result<bool, Error> {
    if (HasResponseMatchFields(c) || c.ipCIDR || c.ipIsPrivate || c.ipAcceptAny) && !c.matchResponse then
      Err(ResponseFieldsNeedMatchResponse)
    else
      match if c.matchResponse then None else ValidateSets(c.ruleSet, sets, overrides)
      case Some(e) => Err(e)
      case None =>
        if c.ruleSetIPCIDRAcceptEmpty then Err(AcceptEmptyNeedsLegacyMode)
        else Ok(c.matchResponse || a.kind.Respond?)
  }

  function ValidateTree(rule: Rule, sets: RuleSets, overrides: RuleSets): Result<bool, Error>
    decreases rule, 1
  {
    match rule
    case Default(c, a) => ValidateDefault(c, a, sets, overrides)
    case Logical(_, rules, a) => ValidateSubtrees(rules, a.kind.Respond?, sets, overrides)
    case UnknownType => Ok(false)
  }

  function ValidateSubtrees(rules: seq<Rule>, requiresPrior: bool, sets: RuleSets,
                            overrides: RuleSets): Result<bool, Error>
    decreases rules, 0
  {
    if rules == [] then Ok(requiresPrior) else
    match ValidateTree(rules[0], sets, overrides)
    case Err(e) => Err(e)
    case Ok(b) => ValidateSubtrees(rules[1..], requiresPrior || b, sets, overrides)
  }

  function ActionType(rule: Rule): ActionKind {
    match rule
    case UnknownType => Unset
    case _ => if rule.action.kind.Unset? then Route else rule.action.kind
  }

  /** validateLegacyDNSModeDisabledRules from rule `i` on. */
  function ValidateFrom(rules: seq<Rule>, i: nat, seenEvaluate: bool, sets: RuleSets,
                        overrides: RuleSets): Option<Error>
    requires i <= |rules|
    decreases |rules| - i
  {
    if i == |rules| then None else
    match ValidateTree(rules[i], sets, overrides)
    case Err(e) => Some(e)
    case Ok(requiresPrior) =>
      if requiresPrior && !seenEvaluate then Some(NoPrecedingEvaluate(i))
      else ValidateFrom(rules, i + 1, seenEvaluate || ActionType(rules[i]).Evaluate?, sets, overrides)
  }

  function ValidateDisabled(rules: seq<Rule>, sets: RuleSets, overrides: RuleSets): Option<Error> {
    ValidateFrom(rules, 0, false, sets, overrides)
  }
}

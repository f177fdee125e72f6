/**
 The interpreter for evaluate / respond rules. It runs a query through the rules in order;
 matching is an arbitrary function of the rule and of the response evaluated so far, and the
 client an arbitrary function of the rule, the server and the options of the query.
 */
module DnsRuleEngine {
  import opened Wrappers
  import opened DnsRules
  import opened TransportManager

  /** A rule's action as the interpreters see it. */
  datatype RuntimeAction =
    | NoAction
    | DoRoute(server: string, options: RouteOptions)
    | DoEvaluate(server: string, options: RouteOptions)
    | DoRespond
    | DoSetOptions(options: RouteOptions)
    | DoReject(drop: bool)
    | DoPredefined

  datatype QueryOptions = QueryOptions(
    strategy: Strategy,
    lookupStrategy: Strategy,
    disableCache: bool,
    disableOptimisticCache: bool,
    rewriteTTL: Option<nat>,
    timeout: nat,
    clientSubnet: Option<Prefix>)

  datatype Address = Address(v6: bool, text: string)

  /** A response: the A and AAAA records of its answer, and the addresses taken from all of the answer. */
  datatype Message = Message(rcode: nat, records: seq<Address>, addresses: seq<Address>)

  const RCODE_SUCCESS := 0
  const RCODE_REFUSED := 5

  datatype Reply = Answer(message: Message) | Rejected | Failed

  datatype Env = Env(
    table: Table,
    fallback: Transport,                              // the default server
    defaultStrategy: Strategy,
    matches: (nat, Option<Message>) -> bool,          // rule against query and evaluated response
    preMatches: nat -> bool,                          // legacy: rule against the query alone
    limited: nat -> bool,                             // legacy: rule limits the answer's addresses
    exchange: (nat, Transport, QueryOptions) -> Reply,
    fixed: nat -> Message)                            // what a predefined rule answers

  /** A query sent while rule `rule` was interpreted. */
  datatype Query = Query(rule: nat, transport: Transport, options: QueryOptions)

  datatype Outcome =
    | FromServer(transport: Transport, reply: Reply)
    | FromEvaluated(transport: Transport, response: Message)
    | MissingResponse
    | Refused
    | Dropped
    | FixedAnswer(rule: nat)

  /** The message an outcome turns into; an error has none. */
  function Response(env: Env, outcome: Outcome): Option<Message> {
    match outcome
    case FromServer(_, reply) => if reply.Answer? then Some(reply.message) else None
    case FromEvaluated(_, response) => Some(response)
    case MissingResponse => None
    case Refused => Some(Message(RCODE_REFUSED, [], []))
    case Dropped => None
    case FixedAnswer(rule) => Some(env.fixed(rule))
  }

  /** The server the message came from, if it came from one. */
  function ServerOf(outcome: Outcome): Option<Transport> {
    if outcome.FromServer? || outcome.FromEvaluated? then Some(outcome.transport) else None
  }

  // ----- Options -----

  /** Overrides `q` by what `r` sets; the two fields an interpreter may skip are switchable. */
  function Override(q: QueryOptions, r: RouteOptions, strategy: bool, optimistic: bool): QueryOptions {
    QueryOptions(
      if strategy && !r.strategy.AsIs? then r.strategy else q.strategy,
      q.lookupStrategy,
      q.disableCache || r.disableCache,
      q.disableOptimisticCache || (optimistic && r.disableOptimisticCache),
      if r.rewriteTTL.Some? then r.rewriteTTL else q.rewriteTTL,
      if r.timeout > 0 then r.timeout else q.timeout,
      if r.clientSubnet.Some? then r.clientSubnet else q.clientSubnet)
  }

  function WithDefaultStrategy(env: Env, q: QueryOptions): QueryOptions {
    if q.strategy.AsIs? then q.(strategy := env.defaultStrategy) else q
  }

  predicate Usable(env: Env, server: string, allowFakeIP: bool) {
    server in env.table && (env.table[server].kind.FakeIP? ==> allowFakeIP)
  }

  /** The options a route action queries its server with. */
  function RouteQuery(env: Env, server: string, q: QueryOptions, r: RouteOptions, strategy: bool,
                      optimistic: bool): QueryOptions
    requires server in env.table
  {
    var merged := Override(q, r, strategy, optimistic);
    WithDefaultStrategy(env,
      if env.table[server].kind.FakeIP? then merged.(disableCache := true) else merged)
  }

  // ----- Specification -----

  /** What the interpreter knows in front of a rule. */
  datatype Snapshot = Snapshot(options: QueryOptions, evaluated: Option<(Message, Transport)>) {
    function Response(): Option<Message> {
      if evaluated.Some? then Some(evaluated.value.0) else None
    }
  }

  function EvaluateOptions(full: bool, env: Env, q: QueryOptions, r: RouteOptions): QueryOptions {
    WithDefaultStrategy(env, Override(q, r, full, true))
  }

  /** The result of executing an evaluate action. */
  function Evaluation(full: bool, env: Env, i: nat, server: string, q: QueryOptions, r: RouteOptions)
    : Option<(Message, Transport)>
  {
    if server !in env.table then None else
    match env.exchange(i, env.table[server], EvaluateOptions(full, env, q, r))
    case Answer(message) => Some((message, env.table[server]))
    case _ => None
  }

  /**
   The snapshot in front of rule `i`. `full` is the complete interpreter; without it an
   action's strategy is skipped, as the source does.
   */
  function Before(full: bool, env: Env, rules: seq<RuntimeAction>, initial: QueryOptions, i: nat): Snapshot
    requires i <= |rules|
  {
    if i == 0 then Snapshot(initial, None) else
    var previous := Before(full, env, rules, initial, i - 1);
    if !env.matches(i - 1, previous.Response()) then previous else
    match rules[i - 1]
    case DoSetOptions(r) => previous.(options := Override(previous.options, r, full, true))
    case DoEvaluate(server, r) =>
      previous.(evaluated := Evaluation(full, env, i - 1, server, previous.options, r))
    case _ => previous
  }

  predicate Hit(full: bool, env: Env, rules: seq<RuntimeAction>, initial: QueryOptions, i: nat)
    requires i < |rules|
  {
    env.matches(i, Before(full, env, rules, initial, i).Response())
  }

  predicate Decides(full: bool, env: Env, rules: seq<RuntimeAction>, initial: QueryOptions, allowFakeIP: bool, i: nat)
    requires i < |rules|
  {
    Hit(full, env, rules, initial, i) &&
    match rules[i]
    case DoRoute(server, _) => Usable(env, server, allowFakeIP)
    case DoRespond => true
    case DoReject(_) => true
    case DoPredefined => true
    case _ => false
  }

  /** `k` is the first rule that decides, or the end of the list if none does. */
  ghost predicate FirstDecider(full: bool, env: Env, rules: seq<RuntimeAction>, initial: QueryOptions,
                               allowFakeIP: bool, k: nat) {
    && k <= |rules|
    && (k < |rules| ==> Decides(full, env, rules, initial, allowFakeIP, k))
    && (forall j :: 0 <= j < k ==> !Decides(full, env, rules, initial, allowFakeIP, j))
  }

  /** The query a deciding rule, or the default server, is answered by. */
  function FinalQuery(full: bool, env: Env, rules: seq<RuntimeAction>, initial: QueryOptions, k: nat): Option<Query>
    requires k <= |rules|
  {
    var q := Before(full, env, rules, initial, k).options;
    if k == |rules| then Some(Query(k, env.fallback, WithDefaultStrategy(env, q)))
    else if rules[k].DoRoute? && rules[k].server in env.table then
      var server := rules[k].server;
      Some(Query(k, env.table[server], RouteQuery(env, server, q, rules[k].options, full, true)))
    else None
  }

  function Decision(full: bool, env: Env, rules: seq<RuntimeAction>, initial: QueryOptions, k: nat): Outcome
    requires k <= |rules|
  {
    var query := FinalQuery(full, env, rules, initial, k);
    if query.Some? then
      FromServer(query.value.transport, env.exchange(k, query.value.transport, query.value.options))
    else
      var evaluated := Before(full, env, rules, initial, k).evaluated;
      match rules[k]
      case DoRespond =>
        if evaluated.None? then MissingResponse else FromEvaluated(evaluated.value.1, evaluated.value.0)
      case DoReject(drop) => if drop then Dropped else Refused
      case _ => FixedAnswer(k)
  }

  /** The queries evaluate rules before `k` have sent. */
  function EvaluateQueries(full: bool, env: Env, rules: seq<RuntimeAction>, initial: QueryOptions, k: nat): seq<Query>
    requires k <= |rules|
  {
    if k == 0 then [] else
    var earlier := EvaluateQueries(full, env, rules, initial, k - 1);
    var action := rules[k - 1];
    if action.DoEvaluate? && Hit(full, env, rules, initial, k - 1) && action.server in env.table then
      var q := Before(full, env, rules, initial, k - 1).options;
      earlier + [Query(k - 1, env.table[action.server], EvaluateOptions(full, env, q, action.options))]
    else earlier
  }

  function AllQueries(full: bool, env: Env, rules: seq<RuntimeAction>, initial: QueryOptions, k: nat): seq<Query>
    requires k <= |rules|
  {
    var last := FinalQuery(full, env, rules, initial, k);
    EvaluateQueries(full, env, rules, initial, k) + (if last.Some? then [last.value] else [])
  }

  // ----- Implementation -----

  /** exchangeWithRules. `queries` lists what was sent, in order. */
  method ExchangeWithRules(env: Env, rules: seq<RuntimeAction>, initial: QueryOptions, allowFakeIP: bool)
    returns (outcome: Outcome, queries: seq<Query>)
    ensures exists k ::
      && FirstDecider(false, env, rules, initial, allowFakeIP, k)
      && outcome == Decision(false, env, rules, initial, k)
      && queries == AllQueries(false, env, rules, initial, k)
  {
    var effective := initial;
    var evaluatedResponse: Option<Message> := None;
    var evaluatedTransport: Option<Transport> := None;
    queries := [];
    for i := 0 to |rules|
      invariant forall j :: 0 <= j < i ==> !Decides(false, env, rules, initial, allowFakeIP, j)
      invariant effective == Before(false, env, rules, initial, i).options
      invariant evaluatedResponse.Some? <==> evaluatedTransport.Some?
      invariant Before(false, env, rules, initial, i).evaluated ==
        if evaluatedResponse.None? || evaluatedTransport.None? then None
        else Some((evaluatedResponse.value, evaluatedTransport.value))
      invariant queries == EvaluateQueries(false, env, rules, initial, i)
    {
      if !env.matches(i, evaluatedResponse) { continue; }
      match rules[i] {
        case DoSetOptions(r) =>
          effective := Override(effective, r, false, true);
        case DoEvaluate(server, r) =>
          if server !in env.table {
            evaluatedResponse, evaluatedTransport := None, None;
            continue;
          }
          var transport := env.table[server];
          var options := WithDefaultStrategy(env, Override(effective, r, false, true));
          var reply := env.exchange(i, transport, options);
          queries := queries + [Query(i, transport, options)];
          if !reply.Answer? {
            evaluatedResponse, evaluatedTransport := None, None;
            continue;
          }
          evaluatedResponse, evaluatedTransport := Some(reply.message), Some(transport);
        case DoRespond =>
          outcome := if evaluatedResponse.None? then MissingResponse
                     else FromEvaluated(evaluatedTransport.value, evaluatedResponse.value);
          assert FirstDecider(false, env, rules, initial, allowFakeIP, i);
          return;
        case DoRoute(server, r) =>
          if !Usable(env, server, allowFakeIP) { continue; }
          var transport := env.table[server];
          var options := RouteQuery(env, server, effective, r, false, true);
          queries := queries + [Query(i, transport, options)];
          assert FirstDecider(false, env, rules, initial, allowFakeIP, i);
          return FromServer(transport, env.exchange(i, transport, options)), queries;
        case DoReject(drop) =>
          assert FirstDecider(false, env, rules, initial, allowFakeIP, i);
          return if drop then Dropped else Refused, queries;
        case DoPredefined =>
          assert FirstDecider(false, env, rules, initial, allowFakeIP, i);
          return FixedAnswer(i), queries;
        case NoAction =>
      }
    }
    var options := WithDefaultStrategy(env, effective);
    queries := queries + [Query(|rules|, env.fallback, options)];
    outcome := FromServer(env.fallback, env.exchange(|rules|, env.fallback, options));
    assert FirstDecider(false, env, rules, initial, allowFakeIP, |rules|);
  }

  // ----- What the specification means: options -----

  /** What rule `j` contributes to the options after it: nothing, unless it is a matching route-options rule. */
  ghost function Contribution(env: Env, rules: seq<RuntimeAction>, initial: QueryOptions, j: nat): RouteOptions
    requires j < |rules|
  {
    if rules[j].DoSetOptions? && Hit(false, env, rules, initial, j) then rules[j].options else NO_OPTIONS
  }

  ghost function Contributions(env: Env, rules: seq<RuntimeAction>, initial: QueryOptions,
                               i: nat): (cs: seq<RouteOptions>)
    requires i <= |rules|
    ensures |cs| == i
  {
    seq(i, j requires 0 <= j < i => Contribution(env, rules, initial, j))
  }

  /** The last setting wins; if there is none, `initial` stays. */
  ghost predicate LastWins<T>(value: T, initial: T, settings: seq<Option<T>>) {
    || (value == initial && forall j :: 0 <= j < |settings| ==> settings[j].None?)
    || exists j :: LastSetting(settings, j) && settings[j] == Some(value)
  }

  ghost predicate LastSetting<T>(settings: seq<Option<T>>, j: int) {
    0 <= j < |settings| && settings[j].Some? && forall m :: j < m < |settings| ==> settings[m].None?
  }

  lemma LastWinsExtends<T>(value: T, initial: T, settings: seq<Option<T>>, next: Option<T>)
    requires LastWins(value, initial, settings)
    ensures LastWins(if next.Some? then next.value else value, initial, settings + [next])
  {
    var all := settings + [next];
    if next.Some? {
      assert all[|settings|] == Some(next.value);
    } else if j :| LastSetting(settings, j) && settings[j] == Some(value) {
      assert all[j] == Some(value) && LastSetting(all, j);
    }
  }

  ghost function Ttls(cs: seq<RouteOptions>): seq<Option<Option<nat>>> {
    seq(|cs|, j requires 0 <= j < |cs| => if cs[j].rewriteTTL.Some? then Some(cs[j].rewriteTTL) else None)
  }

  ghost function Timeouts(cs: seq<RouteOptions>): seq<Option<nat>> {
    seq(|cs|, j requires 0 <= j < |cs| => if cs[j].timeout > 0 then Some(cs[j].timeout) else None)
  }

  ghost function Subnets(cs: seq<RouteOptions>): seq<Option<Option<Prefix>>> {
    seq(|cs|, j requires 0 <= j < |cs| => if cs[j].clientSubnet.Some? then Some(cs[j].clientSubnet) else None)
  }

  /** `q` is `initial` overridden by `cs`, field by field. */
  ghost predicate Merged(q: QueryOptions, initial: QueryOptions, cs: seq<RouteOptions>) {
    && q.strategy == initial.strategy && q.lookupStrategy == initial.lookupStrategy
    && (q.disableCache <==> initial.disableCache || exists c :: c in cs && c.disableCache)
    && (q.disableOptimisticCache <==>
          initial.disableOptimisticCache || exists c :: c in cs && c.disableOptimisticCache)
    && LastWins(q.rewriteTTL, initial.rewriteTTL, Ttls(cs))
    && LastWins(q.timeout, initial.timeout, Timeouts(cs))
    && LastWins(q.clientSubnet, initial.clientSubnet, Subnets(cs))
  }

  lemma MergedExtends(q: QueryOptions, initial: QueryOptions, cs: seq<RouteOptions>, c: RouteOptions)
    requires Merged(q, initial, cs)
    ensures Merged(Override(q, c, false, true), initial, cs + [c])
  {
    var all, n := cs + [c], |cs|;
    assert Ttls(all) == Ttls(cs) + [Ttls(all)[n]];
    assert Timeouts(all) == Timeouts(cs) + [Timeouts(all)[n]];
    assert Subnets(all) == Subnets(cs) + [Subnets(all)[n]];
    LastWinsExtends(q.rewriteTTL, initial.rewriteTTL, Ttls(cs), Ttls(all)[n]);
    LastWinsExtends(q.timeout, initial.timeout, Timeouts(cs), Timeouts(all)[n]);
    LastWinsExtends(q.clientSubnet, initial.clientSubnet, Subnets(cs), Subnets(all)[n]);
    assert forall x :: x in all <==> x in cs || x == c;
  }

  /**
   The options in force at rule `i` come from the caller and from the matching route-options
   rules before it, and from nothing else: what evaluate and route rules set does not leak.
   */
  lemma {:induction false} OptionsMeaning(env: Env, rules: seq<RuntimeAction>, initial: QueryOptions, i: nat)
    requires i <= |rules|
    ensures Merged(Before(false, env, rules, initial, i).options, initial, Contributions(env, rules, initial, i))
  {
    if i == 0 {
      assert Merged(initial, initial, []);
    } else {
      var q, cs := Before(false, env, rules, initial, i - 1).options, Contributions(env, rules, initial, i - 1);
      OptionsMeaning(env, rules, initial, i - 1);
      OptionsStep(env, rules, initial, i - 1, q, cs);
    }
  }

  lemma OptionsStep(env: Env, rules: seq<RuntimeAction>, initial: QueryOptions, i: nat, q: QueryOptions,
                    cs: seq<RouteOptions>)
    requires i < |rules| && q == Before(false, env, rules, initial, i).options
    requires cs == Contributions(env, rules, initial, i) && Merged(q, initial, cs)
    ensures Merged(Before(false, env, rules, initial, i + 1).options, initial,
                   Contributions(env, rules, initial, i + 1))
  {
    var c := Contribution(env, rules, initial, i);
    MergedExtends(q, initial, cs, c);
    ContributionsStep(env, rules, initial, i);
    assert Before(false, env, rules, initial, i + 1).options == Override(q, c, false, true);
  }

  lemma ContributionsStep(env: Env, rules: seq<RuntimeAction>, initial: QueryOptions, i: nat)
    requires i < |rules|
    ensures Contributions(env, rules, initial, i + 1) ==
      Contributions(env, rules, initial, i) + [Contribution(env, rules, initial, i)]
  {
  }

  // ----- What the specification means: the evaluated response -----

  ghost predicate Evaluates(env: Env, rules: seq<RuntimeAction>, initial: QueryOptions, j: nat)
    requires j < |rules|
  {
    rules[j].DoEvaluate? && Hit(false, env, rules, initial, j)
  }

  /** The last evaluate rule before `i` that matched. */
  ghost function LastEvaluate(env: Env, rules: seq<RuntimeAction>, initial: QueryOptions, i: nat): (last: Option<nat>)
    requires i <= |rules|
    ensures last.None? ==> forall j :: 0 <= j < i ==> !Evaluates(env, rules, initial, j)
    ensures last.Some? ==>
      && last.value < i && Evaluates(env, rules, initial, last.value)
      && forall j :: last.value < j < i ==> !Evaluates(env, rules, initial, j)
  {
    if i == 0 then None
    else if Evaluates(env, rules, initial, i - 1) then Some(i - 1)
    else LastEvaluate(env, rules, initial, i - 1)
  }

  /** What executing the evaluate rule `j` yields. */
  ghost function EvaluationAt(env: Env, rules: seq<RuntimeAction>, initial: QueryOptions,
                              j: nat): Option<(Message, Transport)>
    requires j < |rules| && rules[j].DoEvaluate?
  {
    Evaluation(false, env, j, rules[j].server, Before(false, env, rules, initial, j).options, rules[j].options)
  }

  /**
   The response known at rule `i`, with its server, is exactly what the last matching evaluate
   rule before it produced: both are there or neither, and a failed evaluation erases an
   earlier one.
   */
  lemma {:induction false} EvaluatedMeaning(env: Env, rules: seq<RuntimeAction>, initial: QueryOptions, i: nat)
    requires i <= |rules|
    ensures var last := LastEvaluate(env, rules, initial, i);
      Before(false, env, rules, initial, i).evaluated ==
        if last.None? then None else EvaluationAt(env, rules, initial, last.value)
  {
    if i > 0 {
      EvaluatedMeaning(env, rules, initial, i - 1);
    }
  }

  /**
   A respond rule that decides reports a missing response exactly when no evaluate rule before
   it matched, or the last one that did could not reach its server or got no answer from it.
   */
  lemma MissingResponseMeaning(env: Env, rules: seq<RuntimeAction>, initial: QueryOptions, allowFakeIP: bool, k: nat)
    requires FirstDecider(false, env, rules, initial, allowFakeIP, k)
    ensures Decision(false, env, rules, initial, k) == MissingResponse <==>
      && k < |rules| && rules[k].DoRespond?
      && var last := LastEvaluate(env, rules, initial, k);
         last.None? || EvaluationAt(env, rules, initial, last.value).None?
  {
    EvaluatedMeaning(env, rules, initial, k);
  }

  // ----- Skipping the strategy loses nothing when there is none -----

  ghost predicate NoStrategies(rules: seq<RuntimeAction>) {
    forall i :: 0 <= i < |rules| && (rules[i].DoRoute? || rules[i].DoEvaluate? || rules[i].DoSetOptions?)
      ==> rules[i].options.strategy.AsIs?
  }

  lemma {:induction false} SameSnapshots(env: Env, rules: seq<RuntimeAction>, initial: QueryOptions, i: nat)
    requires i <= |rules| && NoStrategies(rules)
    ensures Before(false, env, rules, initial, i) == Before(true, env, rules, initial, i)
    ensures EvaluateQueries(false, env, rules, initial, i) == EvaluateQueries(true, env, rules, initial, i)
  {
    if i > 0 {
      SameSnapshots(env, rules, initial, i - 1);
    }
  }

  /** For rules without strategies the source's interpreter is the complete one. */
  lemma SkippingStrategyIsComplete(env: Env, rules: seq<RuntimeAction>, initial: QueryOptions, allowFakeIP: bool,
                                   k: nat)
    requires NoStrategies(rules)
    ensures FirstDecider(false, env, rules, initial, allowFakeIP, k)
       <==> FirstDecider(true, env, rules, initial, allowFakeIP, k)
    ensures k <= |rules| ==>
      && Decision(false, env, rules, initial, k) == Decision(true, env, rules, initial, k)
      && AllQueries(false, env, rules, initial, k) == AllQueries(true, env, rules, initial, k)
  {
    forall i | 0 <= i <= |rules|
      ensures Before(false, env, rules, initial, i) == Before(true, env, rules, initial, i)
    {
      SameSnapshots(env, rules, initial, i);
    }
    if k <= |rules| {
      SameSnapshots(env, rules, initial, k);
    }
    assert forall i :: 0 <= i < |rules| ==>
      Decides(false, env, rules, initial, allowFakeIP, i) == Decides(true, env, rules, initial, allowFakeIP, i);
  }

  /** The complete interpreter answers with `outcome` and sends `queries`. */
  ghost predicate Interpreted(env: Env, rules: seq<RuntimeAction>, initial: QueryOptions, allowFakeIP: bool,
                              outcome: Outcome, queries: seq<Query>) {
    exists k ::
      && FirstDecider(true, env, rules, initial, allowFakeIP, k)
      && outcome == Decision(true, env, rules, initial, k)
      && queries == AllQueries(true, env, rules, initial, k)
  }

  // ----- Servers that are queried -----

  /** No evaluate rule names a fakeip server of the table. */
  ghost predicate EvaluatesAvoidFakeIP(env: Env, rules: seq<RuntimeAction>) {
    forall i :: 0 <= i < |rules| && rules[i].DoEvaluate? && rules[i].server in env.table
      ==> !env.table[rules[i].server].kind.FakeIP?
  }

  lemma {:induction false} QueriesAvoidFakeIP(env: Env, rules: seq<RuntimeAction>, initial: QueryOptions, k: nat)
    requires FirstDecider(false, env, rules, initial, false, k)
    requires EvaluatesAvoidFakeIP(env, rules) && !env.fallback.kind.FakeIP?
    ensures forall q :: q in AllQueries(false, env, rules, initial, k) ==> !q.transport.kind.FakeIP?
  {
    EvaluateQueriesAvoidFakeIP(env, rules, initial, k);
  }

  lemma {:induction false} EvaluateQueriesAvoidFakeIP(env: Env, rules: seq<RuntimeAction>, initial: QueryOptions,
                                                      k: nat)
    requires k <= |rules| && EvaluatesAvoidFakeIP(env, rules)
    ensures forall q :: q in EvaluateQueries(false, env, rules, initial, k) ==> !q.transport.kind.FakeIP?
  {
    if k > 0 {
      EvaluateQueriesAvoidFakeIP(env, rules, initial, k - 1);
    }
  }
}

/**
 The legacy interpreter: find the next rule that matches, ask its server, and go on with the
 rules behind it if the answer is rejected by the rule's address limit.
 */
module DnsLegacyEngine {
  import opened Wrappers
  import opened TransportManager
  import opened DnsRuleEngine

  /** How a query enters the rules: Exchange takes any question, Lookup asks for addresses. */
  datatype Request = Request(initial: QueryOptions, allowFakeIP: bool, addressQuery: bool, lookup: bool)

  predicate LegacyHit(env: Env, req: Request, i: nat) {
    (env.limited(i) ==> req.addressQuery) && env.preMatches(i)
  }

  /** A rule the search stops at. */
  predicate Candidate(env: Env, rules: seq<RuntimeAction>, req: Request, i: nat)
    requires i < |rules|
  {
    LegacyHit(env, req, i) &&
    match rules[i]
    case DoRoute(server, _) => Usable(env, server, req.allowFakeIP)
    case DoReject(_) => true
    case DoPredefined => true
    case _ => false
  }

  /** The options in force at rule `i`: every attempt starts again from the caller's options. */
  function OptionsAt(env: Env, rules: seq<RuntimeAction>, req: Request, i: nat): QueryOptions
    requires i <= |rules|
  {
    if i == 0 || Candidate(env, rules, req, i - 1) then req.initial
    else if LegacyHit(env, req, i - 1) && rules[i - 1].DoSetOptions? then
      Override(OptionsAt(env, rules, req, i - 1), rules[i - 1].options, true, false)
    else OptionsAt(env, rules, req, i - 1)
  }

  /** The query made when the search stops at rule `i`, or finds none and uses the default. */
  function Attempt(env: Env, rules: seq<RuntimeAction>, req: Request, i: nat): Option<Query>
    requires i <= |rules|
  {
    var q := OptionsAt(env, rules, req, i);
    if i == |rules| then Some(Query(i, env.fallback, WithDefaultStrategy(env, q)))
    else if rules[i].DoRoute? && rules[i].server in env.table then
      var server := rules[i].server;
      Some(Query(i, env.table[server], RouteQuery(env, server, q, rules[i].options, true, false)))
    else None
  }

  function Ask(env: Env, query: Query): Reply {
    env.exchange(query.rule, query.transport, query.options)
  }

  /** Exchange goes on after a rejected answer, Lookup after any error. */
  predicate GoesOn(req: Request, reply: Reply) {
    if req.lookup then !reply.Answer? else reply.Rejected?
  }

  predicate Retried(env: Env, rules: seq<RuntimeAction>, req: Request, i: nat)
    requires i < |rules|
  {
    var attempt := Attempt(env, rules, req, i);
    attempt.Some? && env.limited(i) && GoesOn(req, Ask(env, attempt.value))
  }

  predicate LegacyDecides(env: Env, rules: seq<RuntimeAction>, req: Request, i: nat)
    requires i < |rules|
  {
    Candidate(env, rules, req, i) && !Retried(env, rules, req, i)
  }

  ghost predicate FirstLegacyDecider(env: Env, rules: seq<RuntimeAction>, req: Request, k: nat) {
    && k <= |rules|
    && (k < |rules| ==> LegacyDecides(env, rules, req, k))
    && (forall j :: 0 <= j < k ==> !LegacyDecides(env, rules, req, j))
  }

  function LegacyDecision(env: Env, rules: seq<RuntimeAction>, req: Request, k: nat): Outcome
    requires k <= |rules|
  {
    var attempt := Attempt(env, rules, req, k);
    if attempt.Some? then FromServer(attempt.value.transport, Ask(env, attempt.value))
    else if rules[k].DoReject? then (if rules[k].drop then Dropped else Refused)
    else FixedAnswer(k)
  }

  /** The attempts made at the candidates before `k`. */
  function Attempts(env: Env, rules: seq<RuntimeAction>, req: Request, k: nat): seq<Query>
    requires k <= |rules|
  {
    if k == 0 then [] else
    var earlier, attempt := Attempts(env, rules, req, k - 1), Attempt(env, rules, req, k - 1);
    if Candidate(env, rules, req, k - 1) && attempt.Some? then earlier + [attempt.value] else earlier
  }

  function LegacyQueries(env: Env, rules: seq<RuntimeAction>, req: Request, k: nat): seq<Query>
    requires k <= |rules|
  {
    var last := Attempt(env, rules, req, k);
    Attempts(env, rules, req, k) + (if last.Some? then [last.value] else [])
  }

  // ----- Implementation -----

  /** matchDNS: the next candidate after `ruleIndex`, or the default server (index -1). */
  method MatchDNS(env: Env, rules: seq<RuntimeAction>, req: Request, ruleIndex: int)
    returns (transport: Option<Transport>, index: int, options: QueryOptions)
    requires -1 <= ruleIndex < |rules|
    requires ruleIndex >= 0 ==> Candidate(env, rules, req, ruleIndex)
    ensures index == -1 || ruleIndex < index < |rules|
    ensures forall j :: ruleIndex < j < (if index == -1 then |rules| else index) ==> !Candidate(env, rules, req, j)
    ensures index != -1 ==> Candidate(env, rules, req, index)
    ensures var attempt := Attempt(env, rules, req, if index == -1 then |rules| else index);
      if attempt.None? then transport.None?
      else transport == Some(attempt.value.transport) && WithDefaultStrategy(env, options) == attempt.value.options
  {
    options := req.initial;
    for i := ruleIndex + 1 to |rules|
      invariant options == OptionsAt(env, rules, req, i)
      invariant forall j :: ruleIndex < j < i ==> !Candidate(env, rules, req, j)
    {
      if env.limited(i) && !req.addressQuery { continue; }
      if !env.preMatches(i) { continue; }
      match rules[i] {
        case DoRoute(server, r) =>
          if server !in env.table { continue; }
          var isFakeIP := env.table[server].kind.FakeIP?;
          if isFakeIP && !req.allowFakeIP { continue; }
          options := Override(options, r, true, false);
          if isFakeIP { options := options.(disableCache := true); }
          return Some(env.table[server]), i, options;
        case DoSetOptions(r) =>
          options := Override(options, r, true, false);
        case DoReject(_) => return None, i, options;
        case DoPredefined => return None, i, options;
        case _ =>
      }
    }
    return Some(env.fallback), -1, options;
  }

  /**
   The retry loop of Exchange and Lookup. The rule index only grows until the default server is
   used, so the loop ends and no rule is tried twice.
   */
  method LegacyQuery(env: Env, rules: seq<RuntimeAction>, req: Request)
    returns (outcome: Outcome, queries: seq<Query>)
    ensures exists k ::
      && FirstLegacyDecider(env, rules, req, k)
      && outcome == LegacyDecision(env, rules, req, k)
      && queries == LegacyQueries(env, rules, req, k)
  {
    queries := [];
    var ruleIndex := -1;
    while true
      invariant -1 <= ruleIndex < |rules|
      invariant ruleIndex >= 0 ==> Candidate(env, rules, req, ruleIndex)
      invariant forall j :: 0 <= j <= ruleIndex ==> !LegacyDecides(env, rules, req, j)
      invariant queries == Attempts(env, rules, req, ruleIndex + 1)
      decreases |rules| - ruleIndex
    {
      var transport, index, options := MatchDNS(env, rules, req, ruleIndex);
      ghost var k: nat := if index == -1 then |rules| else index;
      NoAttemptsBetween(env, rules, req, ruleIndex + 1, k);
      if transport.None? {
        assert FirstLegacyDecider(env, rules, req, k);
        return if rules[index].DoReject? then (if rules[index].drop then Dropped else Refused)
               else FixedAnswer(index), queries;
      }
      var query := Query(if index == -1 then |rules| else index, transport.value, WithDefaultStrategy(env, options));
      var reply := Ask(env, query);
      queries := queries + [query];
      if index != -1 && env.limited(index) && GoesOn(req, reply) {
        ruleIndex := index;
        continue;
      }
      assert FirstLegacyDecider(env, rules, req, k);
      return FromServer(transport.value, reply), queries;
    }
  }

  lemma {:induction false} NoAttemptsBetween(env: Env, rules: seq<RuntimeAction>, req: Request, from: nat, k: nat)
    requires from <= k <= |rules|
    requires forall j :: from <= j < k ==> !Candidate(env, rules, req, j)
    ensures Attempts(env, rules, req, k) == Attempts(env, rules, req, from)
    decreases k
  {
    if from < k {
      NoAttemptsBetween(env, rules, req, from, k - 1);
    }
  }

  // ----- What the specification means -----

  /** The rules of the queries are strictly increasing and lie below `bound`. */
  ghost predicate Increasing(qs: seq<Query>, bound: nat) {
    && (forall a, b :: 0 <= a < b < |qs| ==> qs[a].rule < qs[b].rule)
    && (forall q :: q in qs ==> q.rule < bound)
  }

  lemma {:induction false} AttemptsInOrder(env: Env, rules: seq<RuntimeAction>, req: Request, k: nat)
    requires k <= |rules|
    ensures Increasing(Attempts(env, rules, req, k), k)
    decreases k
  {
    if k > 0 {
      AttemptsInOrder(env, rules, req, k - 1);
    }
  }

  /** No rule is asked twice, and none behind the deciding one. */
  lemma NoRuleAskedTwice(env: Env, rules: seq<RuntimeAction>, req: Request, k: nat)
    requires k <= |rules|
    ensures Increasing(LegacyQueries(env, rules, req, k), k + 1)
  {
    AttemptsInOrder(env, rules, req, k);
  }

  /**
   The deciding rule is the first that pre-matches with a usable server or a fixed action and is
   not rejected: every earlier rule that pre-matched so was asked under its address limit, and
   its answer made the search go on.
   */
  lemma EarlierCandidatesWereRejected(env: Env, rules: seq<RuntimeAction>, req: Request, k: nat)
    requires FirstLegacyDecider(env, rules, req, k)
    ensures forall j :: 0 <= j < k && Candidate(env, rules, req, j) ==>
      && rules[j].DoRoute? && rules[j].server in env.table && env.limited(j)
      && exists q :: q in LegacyQueries(env, rules, req, k) && q.rule == j && GoesOn(req, Ask(env, q))
  {
    forall j | 0 <= j < k && Candidate(env, rules, req, j)
      ensures rules[j].DoRoute? && rules[j].server in env.table && env.limited(j)
      ensures exists q :: q in LegacyQueries(env, rules, req, k) && q.rule == j && GoesOn(req, Ask(env, q))
    {
      assert !LegacyDecides(env, rules, req, j);
      AttemptRecorded(env, rules, req, j, k);
    }
  }

  lemma {:induction false} AttemptRecorded(env: Env, rules: seq<RuntimeAction>, req: Request, j: nat, k: nat)
    requires j < k <= |rules| && Candidate(env, rules, req, j) && Attempt(env, rules, req, j).Some?
    ensures Attempt(env, rules, req, j).value in Attempts(env, rules, req, k)
    decreases k
  {
    if j < k - 1 {
      AttemptRecorded(env, rules, req, j, k - 1);
    }
  }

  /** With fakeip servers not allowed, only the default server could be one. */
  lemma {:induction false} LegacyQueriesAvoidFakeIP(env: Env, rules: seq<RuntimeAction>, req: Request, k: nat)
    requires FirstLegacyDecider(env, rules, req, k)
    requires !req.allowFakeIP && !env.fallback.kind.FakeIP?
    ensures forall q :: q in LegacyQueries(env, rules, req, k) ==> !q.transport.kind.FakeIP?
  {
    AttemptsAvoidFakeIP(env, rules, req, k);
  }

  lemma {:induction false} AttemptsAvoidFakeIP(env: Env, rules: seq<RuntimeAction>, req: Request, k: nat)
    requires k <= |rules| && !req.allowFakeIP
    ensures forall q :: q in Attempts(env, rules, req, k) ==> !q.transport.kind.FakeIP?
    decreases k
  {
    if k > 0 {
      AttemptsAvoidFakeIP(env, rules, req, k - 1);
    }
  }

  // ----- The complete interpreter -----

  /** The state of an interpreter that also evaluates, responds and heeds every option field. */
  function FullBefore(env: Env, rules: seq<RuntimeAction>, req: Request, i: nat): Snapshot
    requires i <= |rules|
  {
    if i == 0 then Snapshot(req.initial, None) else
    var previous := FullBefore(env, rules, req, i - 1);
    if Candidate(env, rules, req, i - 1) then previous.(options := req.initial)
    else if !LegacyHit(env, req, i - 1) then previous
    else match rules[i - 1]
      case DoSetOptions(r) => previous.(options := Override(previous.options, r, true, true))
      case DoEvaluate(server, r) =>
        previous.(evaluated := Evaluation(true, env, i - 1, server, previous.options, r))
      case _ => previous
  }

  function FullAttempt(env: Env, rules: seq<RuntimeAction>, req: Request, i: nat): Option<Query>
    requires i <= |rules|
  {
    var q := FullBefore(env, rules, req, i).options;
    if i == |rules| then Some(Query(i, env.fallback, WithDefaultStrategy(env, q)))
    else if rules[i].DoRoute? && rules[i].server in env.table then
      var server := rules[i].server;
      Some(Query(i, env.table[server], RouteQuery(env, server, q, rules[i].options, true, true)))
    else None
  }

  predicate FullDecides(env: Env, rules: seq<RuntimeAction>, req: Request, i: nat)
    requires i < |rules|
  {
    var attempt := FullAttempt(env, rules, req, i);
    || (LegacyHit(env, req, i) && rules[i].DoRespond?)
    || (Candidate(env, rules, req, i) && !(attempt.Some? && env.limited(i) && GoesOn(req, Ask(env, attempt.value))))
  }

  function FullDecision(env: Env, rules: seq<RuntimeAction>, req: Request, k: nat): Outcome
    requires k <= |rules|
  {
    var attempt, evaluated := FullAttempt(env, rules, req, k), FullBefore(env, rules, req, k).evaluated;
    if attempt.Some? then FromServer(attempt.value.transport, Ask(env, attempt.value))
    else match rules[k]
      case DoRespond =>
        if evaluated.None? then MissingResponse else FromEvaluated(evaluated.value.1, evaluated.value.0)
      case DoReject(drop) => if drop then Dropped else Refused
      case _ => FixedAnswer(k)
  }

  function FullAttempts(env: Env, rules: seq<RuntimeAction>, req: Request, k: nat): seq<Query>
    requires k <= |rules|
  {
    if k == 0 then [] else
    var earlier, attempt := FullAttempts(env, rules, req, k - 1), FullAttempt(env, rules, req, k - 1);
    if !LegacyHit(env, req, k - 1) then earlier
    else if rules[k - 1].DoEvaluate? && rules[k - 1].server in env.table then
      var q := EvaluateOptions(true, env, FullBefore(env, rules, req, k - 1).options, rules[k - 1].options);
      earlier + [Query(k - 1, env.table[rules[k - 1].server], q)]
    else if Candidate(env, rules, req, k - 1) && attempt.Some? then earlier + [attempt.value]
    else earlier
  }

  /**
   The complete interpreter answers with `outcome` and sends `queries`: the first rule that
   decides does so, or the default server if none does.
   */
  ghost predicate FullyInterpreted(env: Env, rules: seq<RuntimeAction>, req: Request, outcome: Outcome,
                                   queries: seq<Query>) {
    exists k: nat ::
      && k <= |rules|
      && (k < |rules| ==> FullDecides(env, rules, req, k))
      && (forall j :: 0 <= j < k ==> !FullDecides(env, rules, req, j))
      && outcome == FullDecision(env, rules, req, k)
      && var last := FullAttempt(env, rules, req, k);
         queries == FullAttempts(env, rules, req, k) + (if last.Some? then [last.value] else [])
  }

  /** What legacy mode guarantees about the rules it interprets. */
  ghost predicate LegacyOnly(rules: seq<RuntimeAction>) {
    forall i :: 0 <= i < |rules| ==>
      && !rules[i].DoEvaluate? && !rules[i].DoRespond?
      && (rules[i].DoRoute? || rules[i].DoSetOptions? ==> !rules[i].options.disableOptimisticCache)
  }

  lemma {:induction false} SameOptions(env: Env, rules: seq<RuntimeAction>, req: Request, i: nat)
    requires i <= |rules| && LegacyOnly(rules)
    ensures FullBefore(env, rules, req, i) == Snapshot(OptionsAt(env, rules, req, i), None)
  {
    if i > 0 {
      SameOptions(env, rules, req, i - 1);
    }
  }

  lemma SameDecisions(env: Env, rules: seq<RuntimeAction>, req: Request, i: nat)
    requires i <= |rules| && LegacyOnly(rules)
    ensures Attempt(env, rules, req, i) == FullAttempt(env, rules, req, i)
    ensures i < |rules| ==> (LegacyDecides(env, rules, req, i) <==> FullDecides(env, rules, req, i))
    ensures LegacyDecision(env, rules, req, i) == FullDecision(env, rules, req, i)
  {
    SameOptions(env, rules, req, i);
    assert Attempt(env, rules, req, i) == FullAttempt(env, rules, req, i);
  }

  lemma {:induction false} SameAttempts(env: Env, rules: seq<RuntimeAction>, req: Request, k: nat)
    requires k <= |rules| && LegacyOnly(rules)
    ensures Attempts(env, rules, req, k) == FullAttempts(env, rules, req, k)
  {
    if k > 0 {
      SameAttempts(env, rules, req, k - 1);
      SameDecisions(env, rules, req, k - 1);
    }
  }

  /** For such rules the legacy interpreter, which ignores the rest, is the complete one. */
  lemma LegacyIsComplete(env: Env, rules: seq<RuntimeAction>, req: Request, k: nat)
    requires FirstLegacyDecider(env, rules, req, k) && LegacyOnly(rules)
    ensures FullyInterpreted(env, rules, req, LegacyDecision(env, rules, req, k), LegacyQueries(env, rules, req, k))
  {
    forall j | 0 <= j <= k
      ensures j < |rules| ==> (LegacyDecides(env, rules, req, j) <==> FullDecides(env, rules, req, j))
    {
      SameDecisions(env, rules, req, j);
    }
    SameDecisions(env, rules, req, k);
    SameAttempts(env, rules, req, k);
  }
}

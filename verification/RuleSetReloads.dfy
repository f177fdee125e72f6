/**
 Rule sets reload while the DNS router starts and runs. A reload checks its new metadata with the
 router and installs it later; the router builds its rules, which fixes the mode, and publishes
 them later. Every check, installation, build and publication is one step, and any number of rule
 sets take their steps in any order.
 */
module RuleSetReloads {
  import opened Wrappers
  import opened DnsRules
  import opened DnsRuleMode

  type ThreadId = nat

  datatype Phase = Waiting | Built(legacy: bool) | Running(legacy: bool)

  /** `checked` holds what was accepted and is not yet installed. */
  datatype State = State(sets: RuleSets, checked: map<ThreadId, Update>, router: Phase)

  datatype Step =
    | Check(t: ThreadId, update: Update)
    | Install(t: ThreadId)
    | Build
    | Publish

  /** ValidateRuleSetMetadataUpdate: against the mode in force, or before the start against any. */
  ghost predicate Accepts(rules: seq<Rule>, s: State, u: Update) {
    if s.router.Running? then ValidateUpdate(rules, s.router.legacy, s.sets, u.tag, u.metadata).None?
    else Resolvable(rules, s.sets[u.tag := u.metadata])
  }

  ghost predicate Enabled(rules: seq<Rule>, s: State, step: Step) {
    match step
    case Check(t, _) => t !in s.checked
    case Install(t) => t in s.checked
    case Build => s.router.Waiting? && Resolvable(rules, s.sets)
    case Publish => s.router.Built?
  }

  ghost function Apply(rules: seq<Rule>, s: State, step: Step): State
    requires Enabled(rules, s, step)
  {
    match step
    case Check(t, u) => if Accepts(rules, s, u) then s.(checked := s.checked[t := u]) else s
    case Install(t) =>
      var u := s.checked[t];
      s.(sets := s.sets[u.tag := u.metadata], checked := s.checked - {t})
    case Build => s.(router := Built(NeedsLegacy(rules, s.sets)))
    case Publish => s.(router := Running(s.router.legacy))
  }

  ghost predicate Executable(rules: seq<Rule>, s: State, run: seq<Step>)
    decreases |run|
  {
    run == [] || (Enabled(rules, s, run[0]) && Executable(rules, Apply(rules, s, run[0]), run[1..]))
  }

  ghost function Execute(rules: seq<Rule>, s: State, run: seq<Step>): State
    requires Executable(rules, s, run)
    decreases |run|
  {
    if run == [] then s else Execute(rules, Apply(rules, s, run[0]), run[1..])
  }

  // ----- What no schedule can break -----

  /** The rules hold nothing, at any depth, that the interpreter of this mode ignores. */
  ghost predicate NothingIgnored(rules: seq<Rule>, legacy: bool) {
    forall x :: x in AllNodes(rules) && !x.UnknownType? ==>
      if legacy then !x.action.kind.Evaluate? && !x.action.kind.Respond? && !ActionDisablesLegacy(x.action)
      else !HasStrategy(x)
  }

  ghost predicate AllResolve(rules: seq<Rule>, sets: RuleSets) {
    forall x :: x in AllNodes(rules) ==> Resolves(x, sets)
  }

  ghost predicate Inv(rules: seq<Rule>, s: State) {
    !s.router.Waiting? ==> NothingIgnored(rules, s.router.legacy) && AllResolve(rules, s.sets)
  }

  lemma StepKeepsInv(rules: seq<Rule>, s: State, step: Step)
    requires Inv(rules, s) && Enabled(rules, s, step)
    ensures Inv(rules, Apply(rules, s, step))
  {
    if step.Build? {
      assert s.sets + map[] == s.sets;
      LegacyModeMeaning(rules, s.sets, map[]);
      if NeedsLegacy(rules, s.sets) {
        LegacyHasNoEvaluate(rules, s.sets, map[]);
      } else {
        NonLegacyHasNoStrategy(rules, s.sets, map[]);
      }
    }
  }

  lemma {:induction false} RunKeepsInv(rules: seq<Rule>, s: State, run: seq<Step>)
    requires Inv(rules, s) && Executable(rules, s, run)
    ensures Inv(rules, Execute(rules, s, run))
    decreases |run|
  {
    if run != [] {
      StepKeepsInv(rules, s, run[0]);
      RunKeepsInv(rules, Apply(rules, s, run[0]), run[1..]);
    }
  }

  /**
   Every schedule of reloads, build and publication: the router that runs never meets anything its
   interpreter ignores, and its mode fits the metadata exactly if the analysis of the metadata says
   so: in legacy mode if no rule rules it out, otherwise if the rules pass validation and the
   analysis does not pick legacy mode.
   */
  lemma EveryRunIgnoresNothing(rules: seq<Rule>, sets: RuleSets, run: seq<Step>)
    requires Executable(rules, State(sets, map[], Waiting), run)
    ensures var s := Execute(rules, State(sets, map[], Waiting), run);
      s.router.Running? ==>
        && NothingIgnored(rules, s.router.legacy)
        && (Sound(rules, s.router.legacy, s.sets) <==>
              if s.router.legacy then forall x :: x in AllNodes(rules) ==> !Disables(x, s.sets)
              else !NeedsLegacy(rules, s.sets) && forall i :: 0 <= i < |rules| ==> WellPlaced(rules, i, s.sets))
  {
    RunKeepsInv(rules, State(sets, map[], Waiting), run);
    var s := Execute(rules, State(sets, map[], Waiting), run);
    if s.router.Running? {
      assert s.sets + map[] == s.sets;
      LegacyModeMeaning(rules, s.sets, map[]);
      ValidationMeaning(rules, s.sets, map[]);
      if !s.router.legacy {
        assert forall x :: x in AllNodes(rules) ==> !HasStrategy(x);
      }
    }
  }

  // ----- A running router -----

  /** Whatever else is installed, this update cannot rule legacy mode out, or cannot fail validation. */
  ghost predicate Harmless(rules: seq<Rule>, legacy: bool, u: Update) {
    forall x :: x in AllNodes(rules) && x.Default? && u.tag in x.conditions.ruleSet ==>
      if legacy then !u.metadata.containsDNSQueryType
      else x.conditions.matchResponse || (u.metadata.containsIPCIDR ==> u.metadata.containsNonIPCIDR)
  }

  /** What a run of accepted updates keeps: in legacy mode soundness, otherwise all but the mode. */
  ghost predicate Settled(rules: seq<Rule>, legacy: bool, sets: RuleSets) {
    if legacy then Sound(rules, true, sets)
    else
      && NothingIgnored(rules, false) && AllResolve(rules, sets)
      && forall i :: 0 <= i < |rules| ==> WellPlaced(rules, i, sets)
  }

  ghost predicate RunningInv(rules: seq<Rule>, legacy: bool, s: State) {
    && s.router == Running(legacy) && Settled(rules, legacy, s.sets)
    && forall t :: t in s.checked ==> Harmless(rules, legacy, s.checked[t])
  }

  lemma AcceptedIsHarmless(rules: seq<Rule>, legacy: bool, sets: RuleSets, u: Update)
    requires ValidateUpdate(rules, legacy, sets, u.tag, u.metadata).None?
    ensures Harmless(rules, legacy, u)
  {
    var one := sets[u.tag := u.metadata];
    AcceptedIffSound(rules, legacy, sets, u.tag, u.metadata);
    assert one + map[] == one;
    if legacy {
      LegacyModeMeaning(rules, one, map[]);
      assert forall x :: x in AllNodes(rules) ==> !Disables(x, one);
    } else {
      ValidationMeaning(rules, one, map[]);
      forall x | x in AllNodes(rules) ensures Acceptable(x, one) {
        var i := TopOf(rules, x);
        assert WellPlaced(rules, i, one);
      }
    }
  }

  /** The top-level rule a rule belongs to. */
  lemma {:induction false} TopOf(rules: seq<Rule>, x: Rule) returns (i: nat)
    requires x in AllNodes(rules)
    ensures i < |rules| && x in Nodes(rules[i])
  {
    if x in Nodes(rules[0]) {
      i := 0;
    } else {
      i := TopOf(rules[1..], x);
      i := i + 1;
    }
  }

  lemma HarmlessKeepsSettled(rules: seq<Rule>, legacy: bool, sets: RuleSets, u: Update)
    requires Settled(rules, legacy, sets) && Harmless(rules, legacy, u)
    ensures Settled(rules, legacy, sets[u.tag := u.metadata])
  {
    var one := sets[u.tag := u.metadata];
    assert sets + map[] == sets && one + map[] == one;
    if legacy {
      LegacyModeMeaning(rules, sets, map[]);
      LegacyModeMeaning(rules, one, map[]);
      forall x | x in AllNodes(rules) ensures !Disables(x, one) && Resolves(x, one) {
        assert !Disables(x, sets) && Resolves(x, sets);
      }
    } else {
      forall x | x in AllNodes(rules) ensures Resolves(x, one) {
        assert Resolves(x, sets);
      }
      forall i | 0 <= i < |rules| ensures WellPlaced(rules, i, one) {
        assert WellPlaced(rules, i, sets);
        forall x | x in Nodes(rules[i]) ensures Acceptable(x, one) {
          assert Acceptable(x, sets);
          BelongsToAll(rules, i, x);
          assert x.Default? ==> forall tag :: tag in x.conditions.ruleSet && Matchable(tag, sets) && tag != u.tag ==>
            Matchable(tag, one);
        }
      }
    }
  }

  lemma {:induction false} BelongsToAll(rules: seq<Rule>, i: nat, x: Rule)
    requires i < |rules| && x in Nodes(rules[i])
    ensures x in AllNodes(rules)
  {
    if i > 0 {
      BelongsToAll(rules[1..], i - 1, x);
    }
  }

  lemma {:induction false} RunKeepsRunning(rules: seq<Rule>, legacy: bool, s: State, run: seq<Step>)
    requires RunningInv(rules, legacy, s) && Executable(rules, s, run)
    ensures RunningInv(rules, legacy, Execute(rules, s, run))
    decreases |run|
  {
    if run != [] {
      StepKeepsRunning(rules, legacy, s, run[0]);
      RunKeepsRunning(rules, legacy, Apply(rules, s, run[0]), run[1..]);
    }
  }

  lemma StepKeepsRunning(rules: seq<Rule>, legacy: bool, s: State, step: Step)
    requires RunningInv(rules, legacy, s) && Enabled(rules, s, step)
    ensures RunningInv(rules, legacy, Apply(rules, s, step))
  {
    match step
    case Check(t, u) =>
      if Accepts(rules, s, u) {
        AcceptedIsHarmless(rules, legacy, s.sets, u);
      }
    case Install(t) =>
      HarmlessKeepsSettled(rules, legacy, s.sets, s.checked[t]);
    case Build =>
    case Publish =>
  }

  /**
   In legacy mode no schedule of checks and installations, each check seeing whatever is installed
   at that moment, makes the mode wrong.
   */
  lemma LegacyRunsStaySound(rules: seq<Rule>, sets: RuleSets, run: seq<Step>)
    requires Sound(rules, true, sets) && Executable(rules, State(sets, map[], Running(true)), run)
    ensures Sound(rules, true, Execute(rules, State(sets, map[], Running(true)), run).sets)
  {
    RunKeepsRunning(rules, true, State(sets, map[], Running(true)), run);
  }

  /** Otherwise the mode is right, in every state of every schedule, exactly if the analysis would still pick it. */
  lemma NonLegacyRunsAreSoundIff(rules: seq<Rule>, sets: RuleSets, run: seq<Step>)
    requires Sound(rules, false, sets) && Executable(rules, State(sets, map[], Running(false)), run)
    ensures var s := Execute(rules, State(sets, map[], Running(false)), run);
      Sound(rules, false, s.sets) <==> !NeedsLegacy(rules, s.sets)
  {
    assert sets + map[] == sets;
    LegacyModeMeaning(rules, sets, map[]);
    ValidationMeaning(rules, sets, map[]);
    NonLegacyHasNoStrategy(rules, sets, map[]);
    RunKeepsRunning(rules, false, State(sets, map[], Running(false)), run);
    var s := Execute(rules, State(sets, map[], Running(false)), run);
    assert s.sets + map[] == s.sets;
    LegacyModeMeaning(rules, s.sets, map[]);
    ValidationMeaning(rules, s.sets, map[]);
    assert forall x :: x in AllNodes(rules) ==> !HasStrategy(x);
  }

  // ----- A reload during the start -----

  /** One step, then a run. */
  lemma Then(rules: seq<Rule>, s: State, step: Step, run: seq<Step>)
    requires Enabled(rules, s, step) && Executable(rules, Apply(rules, s, step), run)
    ensures Executable(rules, s, [step] + run)
    ensures Execute(rules, s, [step] + run) == Execute(rules, Apply(rules, s, step), run)
  {
    assert ([step] + run)[1..] == run;
  }

  /**
   A reload that falls between build and publication is accepted for the mode it would have, and the
   router starts in the mode it was built for: a rule over two sets that have no addresses, one of
   which gets some.
   */
  lemma ReloadDuringTheStart() returns (sets: RuleSets, run: seq<Step>)
    ensures Resolvable([TWO_SETS], sets) && Executable([TWO_SETS], State(sets, map[], Waiting), run)
    ensures var s := Execute([TWO_SETS], State(sets, map[], Waiting), run);
      && s.router == Running(false) && Resolvable([TWO_SETS], s.sets)
      && NeedsLegacy([TWO_SETS], s.sets) && !Sound([TWO_SETS], false, s.sets)
  {
    var rules := [TWO_SETS];
    var plain, mixed := Metadata(false, true, false), Metadata(true, true, false);
    sets := map["a" := plain, "b" := plain];
    var later: RuleSets := map["a" := plain, "b" := mixed];
    TwoSetsMode(plain, plain);
    TwoSetsMode(plain, mixed);
    assert sets["b" := mixed] == later;
    var u := Update("b", mixed);
    var s0 := State(sets, map[], Waiting);
    var s1 := Apply(rules, s0, Build);
    var s2 := Apply(rules, s1, Check(0, u));
    var s3 := Apply(rules, s2, Install(0));
    assert s3 == State(later, map[], Built(false));
    run := [Publish] + [];
    Then(rules, s3, Publish, []);
    Then(rules, s2, Install(0), run);
    run := [Install(0)] + run;
    Then(rules, s1, Check(0, u), run);
    run := [Check(0, u)] + run;
    Then(rules, s0, Build, run);
    run := [Build] + run;
  }

  lemma TwoSetsMode(a: Metadata, b: Metadata)
    requires a.containsNonIPCIDR && b.containsNonIPCIDR && !a.containsDNSQueryType && !b.containsDNSQueryType
    ensures var sets: RuleSets := map["a" := a, "b" := b];
      && Resolvable([TWO_SETS], sets)
      && (NeedsLegacy([TWO_SETS], sets) <==> a.containsIPCIDR || b.containsIPCIDR)
      && (Sound([TWO_SETS], false, sets) <==> !(a.containsIPCIDR || b.containsIPCIDR))
  {
    var sets: RuleSets := map["a" := a, "b" := b];
    TwoSetsSound(a, b);
    TwoSetsAnalysis(a, b);
    LegacyModeMeaning([TWO_SETS], sets, map[]);
  }
}

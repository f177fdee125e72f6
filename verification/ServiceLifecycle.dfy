/**
 The daemon's start / reload / close protocol.

 StartOrReloadService, CloseService and SetError hold one lock, but the first two
 release it while an instance is being closed or started. Every stretch of code
 between two lock operations is one atomic step here, and any number of callers
 take their steps in any order. A state is what any caller sees with the lock free.
 */
module ServiceLifecycle {
  import opened Wrappers

  type InstanceId = nat
  type ThreadId = nat

  datatype Status = Idle | Starting | Started | Stopping | Fatal

  /** Where a caller stands while it does not hold the lock. */
  datatype Pc =
    | ClosingOld(inst: InstanceId)                     // reload: closing the previous instance
    | RunningStart(inst: InstanceId)                   // inside instance.Start()
    | StartReturned(inst: InstanceId, success: bool)   // Start is back, lock not yet retaken
    | Closing(inst: InstanceId)                        // CloseService: closing the instance

  /**
   `created` counts the instances made so far (their ids are 0 .. created-1), `handed`
   records every call of Close on an instance, `startOk` the instances whose Start succeeded.
   */
  datatype State = State(
    status: Status,
    instance: Option<InstanceId>,
    threads: map<ThreadId, Pc>,
    created: nat,
    handed: multiset<InstanceId>,
    startOk: set<InstanceId>)

  datatype Step =
    | CallStart(t: ThreadId, build: bool)              // `build`: newInstance succeeds, if reached
    | OldClosed(t: ThreadId, failed: bool, build: bool)
    | StartReturns(t: ThreadId, success: bool)
    | Publish(t: ThreadId)
    | CallClose(t: ThreadId)
    | CloseReturns(t: ThreadId, failed: bool)
    | SetError

  const INITIAL: State := State(Idle, None, map[], 0, multiset{}, {})

  predicate Enabled(s: State, step: Step) {
    match step
    case CallStart(t, _) => t !in s.threads
    case OldClosed(t, _, _) => t in s.threads && s.threads[t].ClosingOld?
    case StartReturns(t, _) => t in s.threads && s.threads[t].RunningStart?
    case Publish(t) => t in s.threads && s.threads[t].StartReturned?
    case CallClose(t) => t !in s.threads
    case CloseReturns(t, _) => t in s.threads && s.threads[t].Closing?
    case SetError => true
  }

  /** The tail of StartOrReloadService that runs once no old instance is in the way. */
  function Create(s: State, t: ThreadId, build: bool): State {
    if !build then
      s.(status := Fatal, threads := s.threads - {t})
    else
      s.(status := Starting, instance := Some(s.created), created := s.created + 1,
         threads := s.threads[t := RunningStart(s.created)])
  }

  function Apply(s: State, step: Step): State
    requires Enabled(s, step)
  {
    match step
    case CallStart(t, build) =>
      if s.status == Stopping then s
      else if s.instance.Some? then
        var previous := s.instance.value;
        s.(status := Stopping, instance := None, handed := s.handed + multiset{previous},
           threads := s.threads[t := ClosingOld(previous)])
      else Create(s, t, build)
    case OldClosed(t, failed, build) =>
      if failed then s.(status := Fatal, threads := s.threads - {t})
      else Create(s, t, build)
    case StartReturns(t, success) =>
      var i := s.threads[t].inst;
      s.(threads := s.threads[t := StartReturned(i, success)],
         startOk := if success then s.startOk + {i} else s.startOk)
    case Publish(t) =>
      var StartReturned(i, success) := s.threads[t];
      var s' := s.(threads := s.threads - {t});
      if s.status != Starting || s.instance != Some(i) then s'
      else if !success then
        s'.(status := Fatal, instance := None, handed := s.handed + multiset{i})
      else s'.(status := Started)
    case CallClose(t) =>
      if s.status != Starting && s.status != Started then s
      else if s.instance.Some? then
        var i := s.instance.value;
        s.(status := Stopping, instance := None, handed := s.handed + multiset{i},
           threads := s.threads[t := Closing(i)])
      else s.(status := Idle)
    case CloseReturns(t, failed) =>
      s.(status := if failed then Fatal else Idle, threads := s.threads - {t})
    case SetError => s.(status := Fatal)
  }

  /** `run` is a schedule that can be executed from `s`. */
  predicate Executable(s: State, run: seq<Step>)
    decreases |run|
  {
    run == [] || (Enabled(s, run[0]) && Executable(Apply(s, run[0]), run[1..]))
  }

  function Execute(s: State, run: seq<Step>): State
    requires Executable(s, run)
    decreases |run|
  {
    if run == [] then s else Execute(Apply(s, run[0]), run[1..])
  }

  /** No SetError of the run falls into a close window. */
  predicate Considerate(s: State, run: seq<Step>)
    requires Executable(s, run)
    decreases |run|
  {
    run == [] ||
    ((run[0].SetError? ==> s.status != Stopping) && Considerate(Apply(s, run[0]), run[1..]))
  }

  predicate InWindow(s: State, t: ThreadId) {
    t in s.threads && (s.threads[t].ClosingOld? || s.threads[t].Closing?)
  }

  predicate Leaked(s: State, i: InstanceId) {
    i < s.created && s.instance != Some(i) && s.handed[i] == 0
  }

  ghost predicate PublishedSafely(s: State) {
    && (s.status == Starting || s.status == Started ==> s.instance.Some?)
    && (s.instance.Some? ==> s.handed[s.instance.value] == 0)
    && (s.status == Started ==> s.instance.value in s.startOk)
    && (forall i :: s.handed[i] <= 1)
  }

  ghost predicate NothingLost(s: State) {
    && (forall i :: !Leaked(s, i))
    && (s.status == Stopping <==> exists t :: InWindow(s, t))
    && (forall t, u :: InWindow(s, t) && InWindow(s, u) ==> t == u)
  }

  // ----- Inductive invariants -----

  ghost predicate IdsInRange(s: State) {
    && (s.instance.Some? ==> s.instance.value < s.created)
    && (forall i :: i in s.handed ==> i < s.created)
    && (forall t :: t in s.threads && s.threads[t].StartReturned? && s.threads[t].success
          ==> s.threads[t].inst in s.startOk)
  }

  ghost predicate Inv(s: State) {
    IdsInRange(s) && PublishedSafely(s)
  }

  ghost predicate CleanInv(s: State) {
    && Inv(s)
    && NothingLost(s)
    && (s.status == Stopping ==> s.instance.None?)
  }

  lemma StepKeepsIds(s: State, step: Step)
    requires IdsInRange(s) && Enabled(s, step)
    ensures IdsInRange(Apply(s, step))
  {
  }

  lemma StepKeepsInv(s: State, step: Step)
    requires Inv(s) && Enabled(s, step)
    ensures Inv(Apply(s, step))
  {
    StepKeepsIds(s, step);
    assert s.handed[s.created] == 0;
  }

  lemma StepKeepsClean(s: State, step: Step)
    requires CleanInv(s) && Enabled(s, step)
    requires step.SetError? ==> s.status != Stopping
    ensures CleanInv(Apply(s, step))
  {
    StepKeepsInv(s, step);
    var s' := Apply(s, step);
    if step.SetError? {
      assert forall t :: InWindow(s', t) <==> InWindow(s, t);
    } else {
      assert forall t :: t != step.t ==> (InWindow(s', t) <==> InWindow(s, t));
      assert step.OldClosed? || step.CloseReturns? ==> InWindow(s, step.t);
      if s'.status == Stopping && s.status != Stopping {
        assert InWindow(s', step.t);
      }
    }
    forall i ensures !Leaked(s', i) {
      assert !Leaked(s, i);
    }
  }

  /** An executable run preserves whatever each of its steps preserves. */
  lemma {:induction false} RunKeepsInv(s: State, run: seq<Step>)
    requires Inv(s) && Executable(s, run)
    ensures Inv(Execute(s, run))
    decreases |run|
  {
    if run != [] {
      StepKeepsInv(s, run[0]);
      RunKeepsInv(Apply(s, run[0]), run[1..]);
    }
  }

  lemma {:induction false} RunKeepsClean(s: State, run: seq<Step>)
    requires CleanInv(s) && Executable(s, run) && Considerate(s, run)
    ensures CleanInv(Execute(s, run))
    decreases |run|
  {
    if run != [] {
      StepKeepsClean(s, run[0]);
      RunKeepsClean(Apply(s, run[0]), run[1..]);
    }
  }

  lemma {:induction false} RunWithoutSetError(s: State, run: seq<Step>)
    requires CleanInv(s) && (s.instance.Some? ==> s.status == Starting || s.status == Started)
    requires Executable(s, run) && SetError !in run
    ensures Considerate(s, run)
    ensures var s' := Execute(s, run);
      s'.instance.Some? ==> s'.status == Starting || s'.status == Started
    decreases |run|
  {
    if run != [] {
      StepKeepsClean(s, run[0]);
      assert run[0].OldClosed? || run[0].CloseReturns? ==> InWindow(s, run[0].t);
      RunWithoutSetError(Apply(s, run[0]), run[1..]);
    }
  }

  // ----- Safety of every run -----

  /**
   Every interleaving of StartOrReloadService, CloseService and SetError: while STARTING or
   STARTED there is an instance; the current instance was never handed to Close; STARTED is
   only ever published for an instance whose own Start succeeded; no instance is handed to
   Close twice.
   */
  lemma EveryRunIsSafe(run: seq<Step>)
    requires Executable(INITIAL, run)
    ensures PublishedSafely(Execute(INITIAL, run))
  {
    RunKeepsInv(INITIAL, run);
  }

  /**
   If no SetError falls into a close window, every instance ever created is the current one
   or was handed to Close (exactly once, by EveryRunIsSafe), and STOPPING means exactly that
   one caller is inside a close window.
   */
  lemma ConsiderateRunsLoseNothing(run: seq<Step>)
    requires Executable(INITIAL, run) && Considerate(INITIAL, run)
    ensures NothingLost(Execute(INITIAL, run))
  {
    RunKeepsClean(INITIAL, run);
  }

  /** Without SetError there is an instance exactly while STARTING or STARTED. */
  lemma RunsWithoutSetError(run: seq<Step>)
    requires Executable(INITIAL, run) && SetError !in run
    ensures NothingLost(Execute(INITIAL, run))
    ensures var s := Execute(INITIAL, run);
      s.instance.Some? <==> s.status == Starting || s.status == Started
  {
    RunWithoutSetError(INITIAL, run);
    RunKeepsClean(INITIAL, run);
  }

  // ----- When SetError is harmful -----

  /** SetError may be called now: no considerate continuation can lose an instance. */
  ghost predicate SetErrorIsSafe(s: State) {
    forall run :: Executable(s, [SetError] + run) && Considerate(s.(status := Fatal), run)
      ==> forall i :: !Leaked(Execute(s, [SetError] + run), i)
  }

  ghost function UpperBound(ids: set<nat>): (b: nat)
    ensures forall x :: x in ids ==> x < b
  {
    if ids == {} then 0 else
    var x :| x in ids;
    var rest := UpperBound(ids - {x});
    assert forall y :: y in ids ==> y == x || y in ids - {x};
    if x < rest then rest else x + 1
  }

  /** One step, then a run. */
  lemma Then(s: State, step: Step, run: seq<Step>)
    requires Enabled(s, step) && Executable(Apply(s, step), run)
    ensures Executable(s, [step] + run) && Execute(s, [step] + run) == Execute(Apply(s, step), run)
    ensures !step.SetError? && Considerate(Apply(s, step), run) ==> Considerate(s, [step] + run)
  {
    assert ([step] + run)[1..] == run;
  }

  /** Reload window: a second start slips in and its instance is overwritten by the first. */
  lemma ReloadWindowLeak(s: State, t: ThreadId) returns (run: seq<Step>)
    requires CleanInv(s) && t in s.threads && s.threads[t].ClosingOld?
    ensures Executable(s, [SetError] + run) && Considerate(s.(status := Fatal), run)
    ensures Leaked(Execute(s, [SetError] + run), s.created)
  {
    var u := UpperBound(s.threads.Keys);
    assert InWindow(s, t);
    assert s.handed[s.created] == 0;
    var s1 := Apply(s, SetError);
    var s2 := Apply(s1, CallStart(u, true));
    run := [OldClosed(t, false, true)] + [];
    Then(s2, OldClosed(t, false, true), []);
    Then(s1, CallStart(u, true), run);
    run := [CallStart(u, true)] + run;
    Then(s, SetError, run);
  }

  /** Close window: the returning CloseService declares IDLE in the middle of a later reload. */
  lemma CloseWindowLeak(s: State, t: ThreadId) returns (run: seq<Step>)
    requires CleanInv(s) && t in s.threads && s.threads[t].Closing?
    ensures Executable(s, [SetError] + run) && Considerate(s.(status := Fatal), run)
    ensures Leaked(Execute(s, [SetError] + run), s.created + 1)
  {
    var u := UpperBound(s.threads.Keys);
    assert InWindow(s, t);
    assert s.handed[s.created + 1] == 0;
    var s1 := Apply(s, SetError);
    var s2 := Apply(s1, CallStart(u, true));
    var s3 := Apply(s2, CallStart(u + 1, true));
    var s4 := Apply(s3, CloseReturns(t, false));
    var s5 := Apply(s4, CallStart(u + 2, true));
    run := [OldClosed(u + 1, false, true)] + [];
    Then(s5, OldClosed(u + 1, false, true), []);
    Then(s4, CallStart(u + 2, true), run);
    run := [CallStart(u + 2, true)] + run;
    Then(s3, CloseReturns(t, false), run);
    run := [CloseReturns(t, false)] + run;
    Then(s2, CallStart(u + 1, true), run);
    run := [CallStart(u + 1, true)] + run;
    Then(s1, CallStart(u, true), run);
    run := [CallStart(u, true)] + run;
    Then(s, SetError, run);
  }

  /** Two calls of StartOrReloadService reach a close window: the harmful state exists. */
  lemma StoppingIsReachable()
    ensures var run := [CallStart(0, true), CallStart(1, true)];
      && Executable(INITIAL, run) && Considerate(INITIAL, run)
      && Execute(INITIAL, run).status == Stopping && !SetErrorIsSafe(Execute(INITIAL, run))
  {
    var s1 := Apply(INITIAL, CallStart(0, true));
    var tail := [CallStart(1, true)] + [];
    Then(s1, CallStart(1, true), []);
    Then(INITIAL, CallStart(0, true), tail);
    assert [CallStart(0, true)] + tail == [CallStart(0, true), CallStart(1, true)];
    SetErrorSafeUnlessStopping([CallStart(0, true), CallStart(1, true)]);
  }

  /**
   In any state a considerate run can reach, calling SetError can cost an instance if and
   only if the status is STOPPING at that moment.
   */
  lemma SetErrorSafeUnlessStopping(history: seq<Step>)
    requires Executable(INITIAL, history) && Considerate(INITIAL, history)
    ensures var s := Execute(INITIAL, history);
      SetErrorIsSafe(s) <==> s.status != Stopping
  {
    var s := Execute(INITIAL, history);
    RunKeepsClean(INITIAL, history);
    if s.status == Stopping {
      var t :| InWindow(s, t);
      if s.threads[t].ClosingOld? {
        var run := ReloadWindowLeak(s, t);
        assert Leaked(Execute(s, [SetError] + run), s.created);
      } else {
        var run := CloseWindowLeak(s, t);
        assert Leaked(Execute(s, [SetError] + run), s.created + 1);
      }
    } else {
      forall run | Executable(s, [SetError] + run) && Considerate(s.(status := Fatal), run)
        ensures forall i :: !Leaked(Execute(s, [SetError] + run), i)
      {
        assert ([SetError] + run)[1..] == run;
        StepKeepsClean(s, SetError);
        RunKeepsClean(Apply(s, SetError), run);
      }
    }
  }
}

/**
 Closing an instance: whoever comes first closes the underlying service, everybody else waits
 for that to be over and returns the same result. Starting reads the service under the same
 lock, but runs it outside.
 */
module InstanceClose {
  import opened Wrappers

  type ThreadId = nat
  type Result = Option<string>   // an error, or none

  /** What the underlying Close returns; an "already closed" error counts as success. */
  datatype Underlying = Succeeds | WasClosed | Fails(error: string)

  datatype Pc =
    | Taken(service: bool)       // first closer, `service`: it took an underlying service with it
    | Publishing(result: Result) // the underlying close is over
    | Waiting                    // another closer was first
    | Woken
    | StartTaken                 // Start has read the service, not yet called it

  datatype State = State(
    closed: bool,
    service: bool,               // the instance still has its underlying service
    closeErr: Result,
    doneClosed: nat,             // how often the done channel was closed
    underlyingCloses: nat,
    underlyingStarts: nat,
    threads: map<ThreadId, Pc>,
    returned: map<ThreadId, Result>)  // results of the Close calls that are over

  datatype Step =
    | CallClose(t: ThreadId)
    | CloseUnderlying(t: ThreadId, outcome: Underlying)
    | Publish(t: ThreadId)
    | Wake(t: ThreadId)
    | ReadResult(t: ThreadId)
    | CallStart(t: ThreadId)
    | StartUnderlying(t: ThreadId)

  function Initial(service: bool): State {
    State(false, service, None, 0, 0, 0, map[], map[])
  }

  predicate Enabled(s: State, step: Step) {
    match step
    case CallClose(t) => t !in s.threads && t !in s.returned
    case CloseUnderlying(t, _) => t in s.threads && s.threads[t].Taken?
    case Publish(t) => t in s.threads && s.threads[t].Publishing?
    case Wake(t) => t in s.threads && s.threads[t].Waiting? && s.doneClosed > 0
    case ReadResult(t) => t in s.threads && s.threads[t].Woken?
    case CallStart(t) => t !in s.threads && t !in s.returned
    case StartUnderlying(t) => t in s.threads && s.threads[t].StartTaken?
  }

  function Apply(s: State, step: Step): State
    requires Enabled(s, step)
  {
    match step
    case CallClose(t) =>
      if s.closed then s.(threads := s.threads[t := Waiting])
      else s.(closed := true, service := false, threads := s.threads[t := Taken(s.service)])
    case CloseUnderlying(t, outcome) =>
      var service := s.threads[t].service;
      var result := if service && outcome.Fails? then Some(outcome.error) else None;
      s.(underlyingCloses := if service then s.underlyingCloses + 1 else s.underlyingCloses,
         threads := s.threads[t := Publishing(result)])
    case Publish(t) =>
      s.(closeErr := s.threads[t].result, doneClosed := s.doneClosed + 1,
         returned := s.returned[t := s.threads[t].result], threads := s.threads - {t})
    case Wake(t) => s.(threads := s.threads[t := Woken])
    case ReadResult(t) => s.(returned := s.returned[t := s.closeErr], threads := s.threads - {t})
    case CallStart(t) =>
      if s.closed || !s.service then s else s.(threads := s.threads[t := StartTaken])
    case StartUnderlying(t) =>
      s.(underlyingStarts := s.underlyingStarts + 1, threads := s.threads - {t})
  }

  predicate Executable(s: State, run: seq<Step>)
    decreases |run|
  {
    run == [] || (Enabled(s, run[0]) && Executable(Apply(s, run[0]), run[1..]))
  }

  function Execute(s: State, run: seq<Step>): State
    requires Executable(s, run)
    decreases |run|
  {
    if run == [] then s else Execute(Apply(s, run[0]), run[1..])
  }

  // ----- Safety -----

  /** The first closer, while it is at it. */
  predicate Closes(s: State, t: ThreadId) {
    t in s.threads && (s.threads[t].Taken? || s.threads[t].Publishing?)
  }

  /**
   The underlying close runs at most once and the done channel is closed at most once; every
   Close that has returned came after that, and all returned the same result.
   */
  ghost predicate ClosedOnce(s: State) {
    && s.underlyingCloses <= 1 && s.doneClosed <= 1
    && (s.returned != map[] ==> s.doneClosed == 1)
    && (forall t :: t in s.returned ==> s.returned[t] == s.closeErr)
  }

  ghost predicate Inv(s: State) {
    && ClosedOnce(s)
    && (forall t, u :: Closes(s, t) && Closes(s, u) ==> t == u)
    && (forall t :: Closes(s, t) ==> s.closed && s.doneClosed == 0)
    && (forall t :: Closes(s, t) && s.threads[t].Taken? ==> s.underlyingCloses == 0)
    && (forall t :: t in s.threads && (s.threads[t].Waiting? || s.threads[t].Woken?) ==> s.closed)
    && (forall t :: t in s.threads && s.threads[t].Woken? ==> s.doneClosed == 1)
    && (s.closed ==> !s.service && (s.doneClosed == 1 || exists t :: Closes(s, t)))
    && (!s.closed ==> s.doneClosed == 0 && s.underlyingCloses == 0)
  }

  lemma StepKeepsInv(s: State, step: Step)
    requires Inv(s) && Enabled(s, step)
    ensures Inv(Apply(s, step))
  {
    var s' := Apply(s, step);
    assert forall t :: t != step.t ==> (Closes(s', t) <==> Closes(s, t));
    match step
    case CallClose(t) =>
      assert !s.closed ==> Closes(s', t);
    case CloseUnderlying(t, _) =>
      assert Closes(s, t) && Closes(s', t);
    case Publish(t) =>
      assert Closes(s, t);
    case _ =>
      assert forall t :: Closes(s', t) <==> Closes(s, t);
  }

  predicate Takes(s: State, t: ThreadId) {
    t in s.threads && s.threads[t].Taken?
  }

  /** Where the underlying service the instance was made with, if any, has gone. */
  ghost predicate Accounted(s: State, service: bool) {
    && (!s.closed ==> s.service == service)
    && (forall t :: Takes(s, t) ==> s.threads[t].service == service)
    && (s.closed ==> (exists t :: Takes(s, t)) || s.underlyingCloses == if service then 1 else 0)
  }

  lemma StepKeepsAccount(s: State, service: bool, step: Step)
    requires Inv(s) && Accounted(s, service) && Enabled(s, step)
    ensures Accounted(Apply(s, step), service)
  {
    var s' := Apply(s, step);
    assert forall t :: t != step.t ==> (Takes(s', t) <==> Takes(s, t));
    if step.CallClose? {
      assert !s.closed ==> Takes(s', step.t);
    } else if step.CloseUnderlying? {
      assert Takes(s, step.t) && Closes(s, step.t);
    } else {
      assert !Takes(s, step.t) && !Takes(s', step.t);
    }
  }

  lemma {:induction false} RunKeepsInv(s: State, service: bool, run: seq<Step>)
    requires Inv(s) && Accounted(s, service) && Executable(s, run)
    ensures Inv(Execute(s, run)) && Accounted(Execute(s, run), service)
    decreases |run|
  {
    if run != [] {
      StepKeepsInv(s, run[0]);
      StepKeepsAccount(s, service, run[0]);
      RunKeepsInv(Apply(s, run[0]), service, run[1..]);
    }
  }

  /**
   Every interleaving of any number of Close and Start calls; once a Close has returned, the
   underlying service, if there was one, has been closed.
   */
  lemma EveryRunClosesOnce(service: bool, run: seq<Step>)
    requires Executable(Initial(service), run)
    ensures var s := Execute(Initial(service), run);
      && ClosedOnce(s)
      && (s.returned != map[] ==> s.underlyingCloses == if service then 1 else 0)
  {
    RunKeepsInv(Initial(service), service, run);
    var s := Execute(Initial(service), run);
    assert forall t :: Takes(s, t) ==> Closes(s, t);
  }

  /** The Start calls that have read the service and are about to run it. */
  function Starters(s: State): set<ThreadId> {
    set t | t in s.threads && s.threads[t].StartTaken?
  }

  /** Once Close has begun, only Start calls that had read the service before can still run it. */
  lemma {:induction false} NoStartAfterClose(s: State, run: seq<Step>)
    requires Executable(s, run) && s.closed
    ensures var s' := Execute(s, run);
      s'.closed && s'.underlyingStarts + |Starters(s')| <= s.underlyingStarts + |Starters(s)|
    decreases |run|
  {
    if run != [] {
      var s1 := Apply(s, run[0]);
      if run[0].StartUnderlying? {
        assert Starters(s1) == Starters(s) - {run[0].t};
      } else {
        assert Starters(s1) == Starters(s);
      }
      NoStartAfterClose(s1, run[1..]);
    }
  }

  /** A waiting Close is not stuck: the first closer is done, or can still take its next step. */
  lemma WaitersAreServed(service: bool, run: seq<Step>, t: ThreadId)
    requires Executable(Initial(service), run)
    requires var s := Execute(Initial(service), run); t in s.threads && s.threads[t].Waiting?
    ensures var s := Execute(Initial(service), run);
      || Enabled(s, Wake(t))
      || exists u :: Enabled(s, Publish(u)) || Enabled(s, CloseUnderlying(u, Succeeds))
  {
    RunKeepsInv(Initial(service), service, run);
    var s := Execute(Initial(service), run);
    if s.doneClosed == 0 {
      var u :| Closes(s, u);
      assert Enabled(s, Publish(u)) || Enabled(s, CloseUnderlying(u, Succeeds));
    }
  }
}

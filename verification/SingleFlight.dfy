/**
 The per-key lock of the DNS client's Exchange, and the set of background refreshes.

 A key's first caller stores a channel under the key and exchanges; later callers find the
 channel and wait until it is closed, then go on without a lock. Removing the channel from
 the map and closing it are two separate actions, so anything may happen between them.
 */
module SingleFlight {
  type Key = string
  type ThreadId = nat
  type Chan = nat

  datatype Pc =
    | Holding(key: Key, chan: Chan)      // stored its channel, has the key to itself
    | Releasing(key: Key, chan: Chan)    // took the channel out of the map, not yet closed
    | Waiting(key: Key, chan: Chan)
    | Proceeding(key: Key, chan: Chan)   // woken up, exchanging without a lock
    | Refreshing(key: Key)               // background refresh after a stale answer

  /** Channels are numbered as they are stored; `closed` records every close call. */
  datatype State = State(
    lock: map<Key, Chan>,
    refreshes: set<Key>,
    threads: map<ThreadId, Pc>,
    channels: nat,
    closed: multiset<Chan>)

  datatype Step =
    | Begin(t: ThreadId, key: Key)
    | Wake(t: ThreadId)
    | Cancel(t: ThreadId)
    | Unlock(t: ThreadId)
    | CloseChannel(t: ThreadId)
    | Finish(t: ThreadId)
    | Refresh(t: ThreadId, key: Key)
    | RefreshDone(t: ThreadId)

  const INITIAL: State := State(map[], {}, map[], 0, multiset{})

  predicate Enabled(s: State, step: Step) {
    match step
    case Begin(t, _) => t !in s.threads
    case Wake(t) => t in s.threads && s.threads[t].Waiting? && s.threads[t].chan in s.closed
    case Cancel(t) => t in s.threads && s.threads[t].Waiting?
    case Unlock(t) => t in s.threads && s.threads[t].Holding?
    case CloseChannel(t) => t in s.threads && s.threads[t].Releasing?
    case Finish(t) => t in s.threads && s.threads[t].Proceeding?
    case Refresh(t, _) => t !in s.threads
    case RefreshDone(t) => t in s.threads && s.threads[t].Refreshing?
  }

  function Apply(s: State, step: Step): State
    requires Enabled(s, step)
  {
    match step
    case Begin(t, key) =>
      if key in s.lock then s.(threads := s.threads[t := Waiting(key, s.lock[key])])
      else s.(lock := s.lock[key := s.channels], channels := s.channels + 1,
              threads := s.threads[t := Holding(key, s.channels)])
    case Wake(t) =>
      s.(threads := s.threads[t := Proceeding(s.threads[t].key, s.threads[t].chan)])
    case Cancel(t) => s.(threads := s.threads - {t})
    case Unlock(t) =>
      s.(lock := s.lock - {s.threads[t].key},
         threads := s.threads[t := Releasing(s.threads[t].key, s.threads[t].chan)])
    case CloseChannel(t) =>
      s.(closed := s.closed + multiset{s.threads[t].chan}, threads := s.threads - {t})
    case Finish(t) => s.(threads := s.threads - {t})
    case Refresh(t, key) =>
      if key in s.refreshes then s
      else s.(refreshes := s.refreshes + {key}, threads := s.threads[t := Refreshing(key)])
    case RefreshDone(t) =>
      s.(refreshes := s.refreshes - {s.threads[t].key}, threads := s.threads - {t})
  }

  predicate Executable(s: State, run: seq<Step>)
    decreases |run|
  {
    run == [] || (Enabled(s, run[0]) && Executable(Apply(s, run[0]), run[1..]))
  }

  function Execute(s: State, run: seq<Step>): State
    requires Executable(s, run)
    decreases |run|
  {
    if run == [] then s else Execute(Apply(s, run[0]), run[1..])
  }

  // ----- Safety -----

  /** A thread that will still close `c`. */
  predicate Owns(s: State, t: ThreadId, c: Chan) {
    t in s.threads && (s.threads[t].Holding? || s.threads[t].Releasing?) && s.threads[t].chan == c
  }

  ghost predicate Owned(s: State, c: Chan) {
    exists t :: Owns(s, t, c)
  }

  predicate Holds(s: State, t: ThreadId, key: Key) {
    t in s.threads && s.threads[t].Holding? && s.threads[t].key == key
  }

  predicate Refreshes(s: State, t: ThreadId, key: Key) {
    t in s.threads && s.threads[t] == Refreshing(key)
  }

  /** The lock map holds, for each key, the channel of exactly one unfinished thread. */
  ghost predicate LocksAreHeld(s: State) {
    && (forall key :: key in s.lock ==> exists t :: Holds(s, t, key))
    && (forall t, key :: Holds(s, t, key) ==> key in s.lock && s.lock[key] == s.threads[t].chan)
    && (forall t, u, key :: Holds(s, t, key) && Holds(s, u, key) ==> t == u)
  }

  ghost predicate ClosedOrOwned(s: State, c: Chan) {
    && s.closed[c] <= 1 && (c in s.closed ==> c < s.channels)
    && (c < s.channels ==> (c in s.closed <==> !Owned(s, c)))
  }

  /** Every channel is closed once, or has exactly one thread that will close it. */
  ghost predicate ChannelsAreClosedOnce(s: State) {
    && (forall c :: ClosedOrOwned(s, c))
    && OneOwnerEach(s)
  }

  ghost predicate OneOwnerEach(s: State) {
    forall t, u, c :: Owns(s, t, c) && Owns(s, u, c) ==> t == u
  }

  /** No wake-up is lost: a waiter's channel is closed, or someone will close it. */
  ghost predicate WaitersAreWoken(s: State) {
    forall t :: t in s.threads ==>
      && (s.threads[t].Waiting? ==>
            s.threads[t].chan in s.closed || Owned(s, s.threads[t].chan))
      && (s.threads[t].Proceeding? ==> s.threads[t].chan in s.closed)
  }

  /** At most one background refresh per key is under way, and the set knows of it. */
  ghost predicate RefreshesAreSingle(s: State) {
    && (forall key :: key in s.refreshes <==> exists t :: Refreshes(s, t, key))
    && (forall t, u, key :: Refreshes(s, t, key) && Refreshes(s, u, key) ==> t == u)
  }

  ghost predicate ChannelsInRange(s: State) {
    && (forall key :: key in s.lock ==> s.lock[key] < s.channels)
    && (forall t :: t in s.threads && !s.threads[t].Refreshing? ==> s.threads[t].chan < s.channels)
  }

  ghost predicate Inv(s: State) {
    && LocksAreHeld(s) && ChannelsAreClosedOnce(s) && WaitersAreWoken(s) && RefreshesAreSingle(s)
    && ChannelsInRange(s)
  }

  lemma StepKeepsHolders(s: State, step: Step)
    requires LocksAreHeld(s) && ChannelsInRange(s) && Enabled(s, step)
    ensures var s' := Apply(s, step);
      && ChannelsInRange(s')
      && (forall t, key :: Holds(s', t, key) ==> key in s'.lock && s'.lock[key] == s'.threads[t].chan)
      && (forall t, u, key :: Holds(s', t, key) && Holds(s', u, key) ==> t == u)
  {
    var s' := Apply(s, step);
    assert forall t, key :: t != step.t ==> (Holds(s', t, key) <==> Holds(s, t, key));
    if step.Unlock? {
      assert Holds(s, step.t, s.threads[step.t].key);
    }
  }

  lemma StepKeepsLocks(s: State, step: Step)
    requires LocksAreHeld(s) && ChannelsInRange(s) && Enabled(s, step)
    ensures LocksAreHeld(Apply(s, step)) && ChannelsInRange(Apply(s, step))
  {
    StepKeepsHolders(s, step);
    var s' := Apply(s, step);
    forall key | key in s'.lock ensures exists t :: Holds(s', t, key) {
      if key in s.lock {
        var t :| Holds(s, t, key);
        assert Holds(s', t, key);
      } else {
        assert Holds(s', step.t, key);
      }
    }
  }

  /** How a step changes who will close which channel. */
  lemma StepMovesOwnership(s: State, step: Step, c: Chan)
    requires OneOwnerEach(s) && Enabled(s, step)
    ensures Owned(Apply(s, step), c) <==>
      || (Owned(s, c) && !(step.CloseChannel? && s.threads[step.t].chan == c))
      || (step.Begin? && step.key !in s.lock && c == s.channels)
  {
    var s' := Apply(s, step);
    assert forall t :: t != step.t ==> (Owns(s', t, c) <==> Owns(s, t, c));
    if Owned(s, c) {
      var t :| Owns(s, t, c);
      assert Owns(s', t, c) || (step.CloseChannel? && t == step.t);
    }
    if Owned(s', c) {
      var t :| Owns(s', t, c);
      assert t != step.t ==> Owns(s, t, c);
      assert step.Unlock? && t == step.t ==> Owns(s, t, c);
    }
    assert step.Begin? && step.key !in s.lock ==> Owns(s', step.t, s.channels);
    if step.CloseChannel? {
      assert Owns(s, step.t, s.threads[step.t].chan);
    }
  }

  lemma StepKeepsChannels(s: State, step: Step)
    requires ChannelsAreClosedOnce(s) && ChannelsInRange(s) && Enabled(s, step)
    ensures ChannelsAreClosedOnce(Apply(s, step))
  {
    forall c: Chan
      ensures ClosedOrOwned(Apply(s, step), c)
    {
      assert ClosedOrOwned(s, c);
      StepMovesOwnership(s, step, c);
      if step.CloseChannel? {
        assert Owns(s, step.t, s.threads[step.t].chan);
        assert Owned(s, s.threads[step.t].chan);
        assert ClosedOrOwned(s, s.threads[step.t].chan);
      }
      assert !Owned(s, s.channels);
    }
    StepKeepsOwners(s, step);
  }

  lemma StepKeepsOwners(s: State, step: Step)
    requires OneOwnerEach(s) && ChannelsInRange(s) && Enabled(s, step)
    ensures OneOwnerEach(Apply(s, step))
  {
    var s' := Apply(s, step);
    forall t, u, c | Owns(s', t, c) && Owns(s', u, c)
      ensures t == u
    {
      assert Owns(s, t, c) || (t == step.t && c == s.channels);
      assert Owns(s, u, c) || (u == step.t && c == s.channels);
    }
  }

  lemma StepKeepsWaiters(s: State, step: Step)
    requires LocksAreHeld(s) && OneOwnerEach(s) && WaitersAreWoken(s) && Enabled(s, step)
    ensures WaitersAreWoken(Apply(s, step))
  {
    var s' := Apply(s, step);
    forall t | t in s'.threads && (s'.threads[t].Waiting? || s'.threads[t].Proceeding?)
      ensures s'.threads[t].chan in s'.closed || (s'.threads[t].Waiting? && Owned(s', s'.threads[t].chan))
    {
      var c := s'.threads[t].chan;
      StepMovesOwnership(s, step, c);
      if t == step.t && step.Begin? {
        var u :| Holds(s, u, step.key);
        assert Owns(s, u, c);
      }
    }
  }

  lemma StepKeepsRefreshes(s: State, step: Step)
    requires RefreshesAreSingle(s) && Enabled(s, step)
    ensures RefreshesAreSingle(Apply(s, step))
  {
    var s' := Apply(s, step);
    assert forall t, key :: t != step.t ==> (Refreshes(s', t, key) <==> Refreshes(s, t, key));
    match step
    case Refresh(t, key) =>
      if key !in s.refreshes { assert Refreshes(s', t, key); }
    case RefreshDone(t) =>
      assert Refreshes(s, t, s.threads[t].key);
    case _ =>
      assert forall key :: !Refreshes(s', step.t, key) && !Refreshes(s, step.t, key);
  }

  lemma {:induction false} RunKeepsInv(s: State, run: seq<Step>)
    requires Inv(s) && Executable(s, run)
    ensures Inv(Execute(s, run))
    decreases |run|
  {
    if run != [] {
      StepKeepsLocks(s, run[0]);
      StepKeepsChannels(s, run[0]);
      StepKeepsWaiters(s, run[0]);
      StepKeepsRefreshes(s, run[0]);
      RunKeepsInv(Apply(s, run[0]), run[1..]);
    }
  }

  /** Every interleaving of any number of exchanges and refreshes. */
  lemma EveryRunIsSafe(run: seq<Step>)
    requires Executable(INITIAL, run)
    ensures var s := Execute(INITIAL, run);
      LocksAreHeld(s) && ChannelsAreClosedOnce(s) && WaitersAreWoken(s) && RefreshesAreSingle(s)
  {
    RunKeepsInv(INITIAL, run);
  }

  // ----- Waiting ends -----

  lemma WaiterRun(s: State, t: ThreadId) returns (run: seq<Step>)
    requires Inv(s) && t in s.threads && s.threads[t].Waiting?
    ensures |run| <= 3 && Executable(s, run)
    ensures forall step :: step in run ==> step.Unlock? || step.CloseChannel? || step == Wake(t)
    ensures t in Execute(s, run).threads && Execute(s, run).threads[t].Proceeding?
  {
    var c := s.threads[t].chan;
    if c in s.closed {
      run := [Wake(t)] + [];
      Then(s, Wake(t), []);
    } else {
      var u :| Owns(s, u, c);
      var s1 := if s.threads[u].Holding? then Apply(s, Unlock(u)) else s;
      var s2 := Apply(s1, CloseChannel(u));
      run := [Wake(t)] + [];
      Then(s2, Wake(t), []);
      Then(s1, CloseChannel(u), run);
      run := [CloseChannel(u)] + run;
      if s.threads[u].Holding? {
        Then(s, Unlock(u), run);
        run := [Unlock(u)] + run;
      }
    }
  }

  /** One step, then a run. */
  lemma Then(s: State, step: Step, run: seq<Step>)
    requires Enabled(s, step) && Executable(Apply(s, step), run)
    ensures Executable(s, [step] + run) && Execute(s, [step] + run) == Execute(Apply(s, step), run)
  {
    assert ([step] + run)[1..] == run;
  }

  /** In any reachable state a waiter gets going after at most two steps of its channel's owner. */
  lemma WaitersCanProceed(history: seq<Step>, t: ThreadId) returns (run: seq<Step>)
    requires Executable(INITIAL, history)
    requires var s := Execute(INITIAL, history); t in s.threads && s.threads[t].Waiting?
    ensures var s := Execute(INITIAL, history);
      && |run| <= 3 && Executable(s, run)
      && (forall step :: step in run ==> step.Unlock? || step.CloseChannel? || step == Wake(t))
      && t in Execute(s, run).threads && Execute(s, run).threads[t].Proceeding?
  {
    RunKeepsInv(INITIAL, history);
    run := WaiterRun(Execute(INITIAL, history), t);
  }
}

/**
 USB requests forwarded to a provider: each Submit takes a sequence number, registers a
 one-slot channel under it, and waits for the response that bears the number. Responses are
 looked up and delivered by another thread, in two separate actions.
 */
module UsbRequests {
  import opened Wrappers

  type ThreadId = nat
  type Chan = nat

  datatype Response = Response(seqno: nat, payload: string)

  datatype Outcome = Detached | SendFailed | Cancelled | Got(response: Response)

  datatype Pc =
    | Numbered(seqno: nat, chan: Chan)                    // has its number, not yet registered
    | Sending(seqno: nat, chan: Chan)                     // registered
    | Selecting(seqno: nat, chan: Chan)                   // request sent
    | Leaving(seqno: nat, chan: Chan, outcome: Outcome)   // about to unregister
    | Delivering(response: Response, chan: Chan)          // found a channel, not yet sent to it

  /** `slots` holds what each channel buffers, `results` what each Submit returned. */
  datatype State = State(
    counter: nat,
    pending: map<nat, Chan>,
    closed: bool,
    slots: seq<Option<Response>>,
    threads: map<ThreadId, Pc>,
    results: map<ThreadId, (nat, Outcome)>)

  datatype Step =
    | Submit(t: ThreadId)
    | Register(t: ThreadId)
    | Send(t: ThreadId, ok: bool)
    | Cancel(t: ThreadId)
    | Receive(t: ThreadId)
    | Unregister(t: ThreadId)
    | Deliver(t: ThreadId, response: Response)
    | TrySend(t: ThreadId)
    | Close

  const INITIAL: State := State(0, map[], false, [], map[], map[])

  predicate At(s: State, t: ThreadId) {
    t in s.threads && s.threads[t].chan < |s.slots|
  }

  predicate Enabled(s: State, step: Step) {
    match step
    case Submit(t) => t !in s.threads && t !in s.results
    case Register(t) => At(s, t) && s.threads[t].Numbered?
    case Send(t, _) => At(s, t) && s.threads[t].Sending?
    case Cancel(t) => At(s, t) && s.threads[t].Selecting?
    case Receive(t) => At(s, t) && s.threads[t].Selecting? && s.slots[s.threads[t].chan].Some?
    case Unregister(t) => At(s, t) && s.threads[t].Leaving?
    case Deliver(t, _) => t !in s.threads && t !in s.results
    case TrySend(t) => At(s, t) && s.threads[t].Delivering?
    case Close => true
  }

  function Apply(s: State, step: Step): State
    requires Enabled(s, step)
  {
    match step
    case Submit(t) =>
      s.(counter := s.counter + 1, slots := s.slots + [None],
         threads := s.threads[t := Numbered(s.counter + 1, |s.slots|)])
    case Register(t) =>
      var Numbered(n, c) := s.threads[t];
      if s.closed then s.(threads := s.threads - {t}, results := s.results[t := (n, Detached)])
      else s.(pending := s.pending[n := c], threads := s.threads[t := Sending(n, c)])
    case Send(t, ok) =>
      var Sending(n, c) := s.threads[t];
      s.(threads := s.threads[t := if ok then Selecting(n, c) else Leaving(n, c, SendFailed)])
    case Cancel(t) =>
      s.(threads := s.threads[t := Leaving(s.threads[t].seqno, s.threads[t].chan, Cancelled)])
    case Receive(t) =>
      var Selecting(n, c) := s.threads[t];
      s.(slots := s.slots[c := None], threads := s.threads[t := Leaving(n, c, Got(s.slots[c].value))])
    case Unregister(t) =>
      var Leaving(n, c, outcome) := s.threads[t];
      s.(pending := s.pending - {n}, threads := s.threads - {t}, results := s.results[t := (n, outcome)])
    case Deliver(t, response) =>
      if response.seqno in s.pending then
        s.(threads := s.threads[t := Delivering(response, s.pending[response.seqno])])
      else s
    case TrySend(t) =>
      var Delivering(response, c) := s.threads[t];
      s.(threads := s.threads - {t},
         slots := if s.slots[c].None? then s.slots[c := Some(response)] else s.slots)
    case Close => s.(closed := true)
  }

  predicate Executable(s: State, run: seq<Step>)
    decreases |run|
  {
    run == [] || (Enabled(s, run[0]) && Executable(Apply(s, run[0]), run[1..]))
  }

  function Execute(s: State, run: seq<Step>): State
    requires Executable(s, run)
    decreases |run|
  {
    if run == [] then s else Execute(Apply(s, run[0]), run[1..])
  }

  // ----- Safety -----

  predicate Submits(s: State, t: ThreadId) {
    t in s.threads && !s.threads[t].Delivering?
  }

  predicate Registered(s: State, t: ThreadId) {
    Submits(s, t) && !s.threads[t].Numbered?
  }

  /**
   A Submit that got a response got one bearing its own number, and has unregistered; what is
   registered belongs to exactly one Submit that is still running.
   */
  ghost predicate Matched(s: State) {
    && (forall t :: t in s.results ==>
          && s.results[t].0 !in s.pending
          && (s.results[t].1.Got? ==> s.results[t].1.response.seqno == s.results[t].0))
    && (forall n :: n in s.pending ==> exists t :: Registered(s, t) && s.threads[t].seqno == n)
    && OneSubmitEach(s)
  }

  /** The i-th Submit has number i and channel i - 1: numbers and channels never get mixed up. */
  ghost predicate NumbersMatchChannels(s: State) {
    && s.counter == |s.slots|
    && (forall t :: t in s.threads ==> At(s, t) && ThreadOk(s.threads[t]))
    && (forall c :: 0 <= c < |s.slots| && s.slots[c].Some? ==> s.slots[c].value.seqno == c + 1)
    && (forall n :: n in s.pending ==> s.pending[n] + 1 == n && n <= s.counter)
  }

  predicate ThreadOk(pc: Pc) {
    match pc
    case Delivering(response, c) => response.seqno == c + 1
    case Leaving(n, c, outcome) => n == c + 1 && (outcome.Got? ==> outcome.response.seqno == n)
    case _ => pc.seqno == pc.chan + 1
  }

  ghost predicate OneSubmitEach(s: State) {
    forall t, u :: Submits(s, t) && Submits(s, u) && s.threads[t].seqno == s.threads[u].seqno ==> t == u
  }

  ghost predicate PendingIsRegistered(s: State) {
    && (forall t :: Registered(s, t) ==> s.threads[t].seqno in s.pending)
    && (forall n :: n in s.pending ==> exists t :: Registered(s, t) && s.threads[t].seqno == n)
  }

  ghost predicate ResultsAreFinal(s: State) {
    && (forall t :: t in s.results ==>
          && s.results[t].0 <= s.counter && s.results[t].0 !in s.pending
          && (s.results[t].1.Got? ==> s.results[t].1.response.seqno == s.results[t].0))
    && (forall t, u :: t in s.results && Submits(s, u) ==> s.results[t].0 != s.threads[u].seqno)
  }

  ghost predicate Inv(s: State) {
    NumbersMatchChannels(s) && OneSubmitEach(s) && PendingIsRegistered(s) && ResultsAreFinal(s)
  }

  lemma StepKeepsNumbers(s: State, step: Step)
    requires NumbersMatchChannels(s) && Enabled(s, step)
    ensures NumbersMatchChannels(Apply(s, step))
  {
  }

  /** Steps other than Submit change no thread's number. */
  lemma NumbersStay(s: State, step: Step, t: ThreadId)
    requires Enabled(s, step)
    ensures Submits(Apply(s, step), t) && !(step.Submit? && t == step.t) ==>
      Submits(s, t) && Apply(s, step).threads[t].seqno == s.threads[t].seqno
  {
  }

  lemma StepKeepsOneEach(s: State, step: Step)
    requires NumbersMatchChannels(s) && OneSubmitEach(s) && Enabled(s, step)
    ensures OneSubmitEach(Apply(s, step))
  {
    var s' := Apply(s, step);
    forall t, u | Submits(s', t) && Submits(s', u) && s'.threads[t].seqno == s'.threads[u].seqno
      ensures t == u
    {
      NumbersStay(s, step, t);
      NumbersStay(s, step, u);
    }
  }

  lemma StepKeepsPending(s: State, step: Step)
    requires OneSubmitEach(s) && PendingIsRegistered(s) && Enabled(s, step)
    ensures PendingIsRegistered(Apply(s, step))
  {
    var s' := Apply(s, step);
    forall n | n in s'.pending ensures exists t :: Registered(s', t) && s'.threads[t].seqno == n {
      if n in s.pending {
        var t :| Registered(s, t) && s.threads[t].seqno == n;
        assert step.Unregister? ==> t != step.t;
        assert Registered(s', t) && s'.threads[t].seqno == n;
      } else {
        assert Registered(s', step.t) && s'.threads[step.t].seqno == n;
      }
    }
    forall t | Registered(s', t) ensures s'.threads[t].seqno in s'.pending {
      NumbersStay(s, step, t);
      assert Registered(s, t) || (step.Register? && t == step.t);
      assert step.Unregister? ==> t != step.t && s.threads[t].seqno != s.threads[step.t].seqno;
    }
  }

  lemma StepKeepsResults(s: State, step: Step)
    requires Inv(s) && Enabled(s, step)
    ensures ResultsAreFinal(Apply(s, step))
  {
    var s' := Apply(s, step);
    forall t | t in s'.results
      ensures s'.results[t].0 <= s'.counter && s'.results[t].0 !in s'.pending
      ensures s'.results[t].1.Got? ==> s'.results[t].1.response.seqno == s'.results[t].0
    {
      if t !in s.results {
        assert Submits(s, t) && ThreadOk(s.threads[t]) && At(s, t);
      } else if step.Register? {
        assert Submits(s, step.t);
      }
    }
    forall t, u | t in s'.results && Submits(s', u)
      ensures s'.results[t].0 != s'.threads[u].seqno
    {
      NumbersStay(s, step, u);
      assert t in s.results || Submits(s, t);
    }
  }

  lemma InvImpliesMatched(s: State)
    requires Inv(s)
    ensures Matched(s)
  {
  }

  lemma {:induction false} RunKeepsInv(s: State, run: seq<Step>)
    requires Inv(s) && Executable(s, run)
    ensures Inv(Execute(s, run))
    decreases |run|
  {
    if run != [] {
      StepKeepsNumbers(s, run[0]);
      StepKeepsOneEach(s, run[0]);
      StepKeepsPending(s, run[0]);
      StepKeepsResults(s, run[0]);
      RunKeepsInv(Apply(s, run[0]), run[1..]);
    }
  }

  /** Every interleaving of submits, deliveries and closing. */
  lemma EveryResponseReachesItsRequest(run: seq<Step>)
    requires Executable(INITIAL, run)
    ensures Matched(Execute(INITIAL, run))
  {
    RunKeepsInv(INITIAL, run);
    InvImpliesMatched(Execute(INITIAL, run));
  }
}

/**
 The one-slot channel that carries device snapshots: the sender never blocks, it empties a full
 slot and tries again, while a receiver may empty the slot at any moment. Snapshots are
 numbered as they are sent.
 */
module UsbSnapshots {
  import opened Wrappers

  datatype Sender = Idle | Trying | Full | Emptied

  datatype State = State(
    sent: nat,                 // snapshots handed to the sender so far; the current one is sent - 1
    sender: Sender,
    slot: Option<nat>,
    received: seq<nat>)

  datatype Step = Call | FirstTry | Drain | SecondTry | Receive

  const INITIAL: State := State(0, Idle, None, [])

  predicate Enabled(s: State, step: Step) {
    match step
    case Call => s.sender == Idle
    case FirstTry => s.sender == Trying && s.sent > 0
    case Drain => s.sender == Full
    case SecondTry => s.sender == Emptied && s.sent > 0
    case Receive => s.slot.Some?
  }

  function Apply(s: State, step: Step): State
    requires Enabled(s, step)
  {
    match step
    case Call => s.(sent := s.sent + 1, sender := Trying)
    case FirstTry => if s.slot.None? then s.(slot := Some(s.sent - 1), sender := Idle) else s.(sender := Full)
    case Drain => s.(slot := None, sender := Emptied)
    case SecondTry => s.(slot := if s.slot.None? then Some(s.sent - 1) else s.slot, sender := Idle)
    case Receive => s.(slot := None, received := s.received + [s.slot.value])
  }

  predicate Executable(s: State, run: seq<Step>)
    decreases |run|
  {
    run == [] || (Enabled(s, run[0]) && Executable(Apply(s, run[0]), run[1..]))
  }

  function Execute(s: State, run: seq<Step>): State
    requires Executable(s, run)
    decreases |run|
  {
    if run == [] then s else Execute(Apply(s, run[0]), run[1..])
  }

  ghost predicate Increasing(received: seq<nat>) {
    forall i, j :: 0 <= i < j < |received| ==> received[i] < received[j]
  }

  /** The newest snapshot is waiting in the slot, or is the one received last. */
  predicate NewestArrives(s: State) {
    s.slot == Some(s.sent - 1) || (s.slot.None? && s.received != [] && s.received[|s.received| - 1] == s.sent - 1)
  }

  ghost predicate Inv(s: State) {
    && Increasing(s.received)
    && (s.slot.Some? ==> s.slot.value < s.sent && forall x :: x in s.received ==> x < s.slot.value)
    && (forall x :: x in s.received ==> x < s.sent)
    && (s.sender != Idle ==> s.sent > 0 && (s.slot.Some? ==> s.slot.value < s.sent - 1)
                             && forall x :: x in s.received ==> x < s.sent - 1)
    && (s.sender == Emptied ==> s.slot.None?)
    && (s.sender == Idle && s.sent > 0 ==> NewestArrives(s))
  }

  lemma StepKeepsInv(s: State, step: Step)
    requires Inv(s) && Enabled(s, step)
    ensures Inv(Apply(s, step))
  {
    if step.Receive? {
      var received := Apply(s, step).received;
      forall i, j | 0 <= i < j < |received| ensures received[i] < received[j] {
        assert s.received[i] in s.received;
      }
    }
  }

  lemma {:induction false} RunKeepsInv(s: State, run: seq<Step>)
    requires Inv(s) && Executable(s, run)
    ensures Inv(Execute(s, run))
    decreases |run|
  {
    if run != [] {
      StepKeepsInv(s, run[0]);
      RunKeepsInv(Apply(s, run[0]), run[1..]);
    }
  }

  /**
   Whatever the receiver does meanwhile: snapshots arrive in order, none twice, and whenever a
   send is over the newest one has arrived or is waiting; so every second try succeeds.
   */
  lemma SnapshotsArriveInOrder(run: seq<Step>)
    requires Executable(INITIAL, run)
    ensures var s := Execute(INITIAL, run);
      && Increasing(s.received)
      && (s.sender == Idle && s.sent > 0 ==> NewestArrives(s))
      && (s.sender == Emptied ==> s.slot.None?)
  {
    RunKeepsInv(INITIAL, run);
  }
}

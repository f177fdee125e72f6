/**
 A relayed connection: one copier per direction, a flag they swap when they finish, and a
 close callback that has to run once.

 A TCP relay first lets each side finish its write handshake, then starts both copiers; the
 copier that finishes second calls back and closes both ends. In a packet relay the first
 finisher calls back and every finisher closes both ends. Swapping the flag, calling back and
 closing an end are separate actions: anything may happen between them.
 */
module Relay {
  datatype Direction = Upload | Download

  datatype End = Local | Remote

  /** How a TCP copier ended: with an error, or cleanly towards a duplex or a plain end. */
  datatype Ending = Broken | HalfClosed | HalfCloseFailed | PlainClosed

  /** What is still to close: source then destination, the destination, or neither. */
  datatype Todo = Both | Second | Nothing

  datatype Copier =
    | NotStarted
    | Copying
    | Releasing(todo: Todo)          // copied; closing before the swap
    | Owing                          // swapped the flag, has to call back
    | ClosingBoth(todo: Todo)        // closing after the swap
    | Finished

  /** Where the goroutine that launches the relay stands. */
  datatype Phase =
    | Handshaking(d: Direction)
    | HandshakeFailed(d: Direction)  // has to swap the flag
    | HandshakeOwing(d: Direction)
    | HandshakeClosing(d: Direction, todo: Todo)
    | Starting(d: Direction)         // starts the copier of this direction next
    | Running
    | Aborted

  datatype State = State(
    packet: bool,
    phase: Phase,
    done: bool,
    callbacks: nat,
    closed: set<End>,
    upload: Copier,
    download: Copier)

  datatype Step =
    | HandshakeOk
    | HandshakeFails
    | HandshakeSwap
    | HandshakeCallback
    | HandshakeClose
    | StartCopier
    | CopyEnds(d: Direction, ending: Ending)
    | Swap(d: Direction)
    | Callback(d: Direction)
    | CloseEnd(d: Direction)

  const BOTH: set<End> := {Local, Remote}

  function Source(d: Direction): End {
    if d == Upload then Local else Remote
  }

  function Destination(d: Direction): End {
    if d == Upload then Remote else Local
  }

  /** The end that is closed next, and what is left then. */
  function Close(d: Direction, todo: Todo): (End, Todo)
    requires !todo.Nothing?
  {
    if todo.Both? then (Source(d), Second) else (Destination(d), Nothing)
  }

  function Launch(packet: bool): State {
    State(packet, if packet then Starting(Upload) else Handshaking(Upload), false, 0, {}, NotStarted, NotStarted)
  }

  function Of(s: State, d: Direction): Copier {
    if d == Upload then s.upload else s.download
  }

  function With(s: State, d: Direction, c: Copier): State {
    if d == Upload then s.(upload := c) else s.(download := c)
  }

  predicate Enabled(s: State, step: Step) {
    match step
    case HandshakeOk => s.phase.Handshaking?
    case HandshakeFails => s.phase.Handshaking?
    case HandshakeSwap => s.phase.HandshakeFailed?
    case HandshakeCallback => s.phase.HandshakeOwing?
    case HandshakeClose => s.phase.HandshakeClosing? && !s.phase.todo.Nothing?
    case StartCopier => s.phase.Starting?
    case CopyEnds(d, _) => Of(s, d).Copying?
    case Swap(d) => Of(s, d) == Releasing(Nothing)
    case Callback(d) => Of(s, d).Owing?
    case CloseEnd(d) => (Of(s, d).Releasing? || Of(s, d).ClosingBoth?) && !Of(s, d).todo.Nothing?
  }

  /** What a copier closes before the swap. */
  function ToRelease(packet: bool, ending: Ending): Todo {
    if packet then Nothing else
    match ending
    case Broken => Both
    case HalfClosed => Nothing
    case HalfCloseFailed => Both
    case PlainClosed => Second
  }

  function Apply(s: State, step: Step): State
    requires Enabled(s, step)
  {
    match step
    case HandshakeOk => s.(phase := if s.phase.d == Upload then Handshaking(Download) else Starting(Upload))
    case HandshakeFails => s.(phase := HandshakeFailed(s.phase.d))
    case HandshakeSwap =>
      s.(done := true, phase := if s.done then HandshakeClosing(s.phase.d, Both) else HandshakeOwing(s.phase.d))
    case HandshakeCallback => s.(callbacks := s.callbacks + 1, phase := HandshakeClosing(s.phase.d, Both))
    case HandshakeClose =>
      var (end, rest) := Close(s.phase.d, s.phase.todo);
      s.(closed := s.closed + {end}, phase := if rest.Nothing? then Aborted else HandshakeClosing(s.phase.d, rest))
    case StartCopier =>
      With(s, s.phase.d, Copying).(phase := if s.phase.d == Upload then Starting(Download) else Running)
    case CopyEnds(d, ending) => With(s, d, Releasing(ToRelease(s.packet, ending)))
    case Swap(d) =>
      // The flag tells whether the other copier was here before.
      var next :=
        if s.packet then (if s.done then ClosingBoth(Both) else Owing)
        else (if s.done then Owing else Finished);
      With(s.(done := true), d, next)
    case Callback(d) => With(s.(callbacks := s.callbacks + 1), d, ClosingBoth(Both))
    case CloseEnd(d) =>
      var c := Of(s, d);
      var (end, rest) := Close(d, c.todo);
      With(s.(closed := s.closed + {end}), d,
        if c.Releasing? then Releasing(rest) else if rest.Nothing? then Finished else ClosingBoth(rest))
  }

  predicate Executable(s: State, run: seq<Step>)
    decreases |run|
  {
    run == [] || (Enabled(s, run[0]) && Executable(Apply(s, run[0]), run[1..]))
  }

  function Execute(s: State, run: seq<Step>): State
    requires Executable(s, run)
    decreases |run|
  {
    if run == [] then s else Execute(Apply(s, run[0]), run[1..])
  }

  // ----- Safety -----

  /** Nothing is left to do. */
  predicate Over(s: State) {
    s.phase == Aborted || (s.phase == Running && s.upload == Finished && s.download == Finished)
  }

  /** The copier has swapped the flag. */
  predicate Swapped(c: Copier) {
    c.Owing? || c.ClosingBoth? || c.Finished?
  }

  function Owed(s: State): nat {
    (if s.upload.Owing? then 1 else 0) + (if s.download.Owing? then 1 else 0)
      + (if s.phase.HandshakeOwing? then 1 else 0)
  }

  predicate AllClosed(s: State) {
    Local in s.closed && Remote in s.closed
  }

  /** Closing what is still to close leaves neither end open. */
  predicate Progresses(s: State, d: Direction, todo: Todo) {
    !todo.Nothing? && (todo.Second? ==> Source(d) in s.closed)
  }

  predicate CopierOk(s: State, d: Direction) {
    Of(s, d).ClosingBoth? ==> Progresses(s, d, Of(s, d).todo)
  }

  /** Which copiers have been started; before that nothing has happened. */
  predicate PhaseOk(s: State) {
    match s.phase
    case Starting(d) =>
      if d == Upload then s.upload == NotStarted && s.download == NotStarted && !s.done && s.callbacks == 0
      else s.upload != NotStarted && s.download == NotStarted
    case Running => s.upload != NotStarted && s.download != NotStarted
    case HandshakeOwing(_) => Untouched(s) && s.done && s.callbacks == 0
    case HandshakeClosing(d, todo) => Untouched(s) && s.callbacks == 1 && Progresses(s, d, todo)
    case Aborted => Untouched(s) && s.callbacks == 1 && AllClosed(s)
    case _ => Untouched(s) && !s.done && s.callbacks == 0
  }

  predicate Untouched(s: State) {
    !s.packet && s.upload == NotStarted && s.download == NotStarted
  }

  /** Who has called back, or still has to: in TCP the second to swap, in packets the first. */
  predicate Accountable(s: State) {
    if s.packet then
      && s.callbacks + Owed(s) == (if s.done then 1 else 0)
      && (s.closed != {} ==> s.done)
      && (s.upload.Releasing? ==> s.upload.todo.Nothing?) && (s.download.Releasing? ==> s.download.todo.Nothing?)
      && (s.upload.Finished? || s.download.Finished? ==> AllClosed(s))
    else
      && s.callbacks + Owed(s) == (if Swapped(s.upload) && Swapped(s.download) then 1 else 0)
      && (Swapped(s.upload) && !Swapped(s.download) ==> s.upload.Finished?)
      && (Swapped(s.download) && !Swapped(s.upload) ==> s.download.Finished?)
      && (Swapped(s.upload) && Swapped(s.download) ==> s.upload.Finished? || s.download.Finished?)
      && (s.upload.Finished? && s.download.Finished? ==> AllClosed(s))
  }

  predicate Launched(s: State) {
    s.phase.Starting? || s.phase.Running?
  }

  /** Everybody is where the others think. */
  predicate Placed(s: State) {
    PhaseOk(s) && CopierOk(s, Upload) && CopierOk(s, Download)
  }

  predicate Inv(s: State) {
    && Placed(s)
    && (Launched(s) ==> (s.done <==> Swapped(s.upload) || Swapped(s.download)) && Accountable(s))
  }

  lemma StepKeepsPlaces(s: State, step: Step)
    requires Placed(s) && Enabled(s, step)
    ensures Placed(Apply(s, step))
  {
  }

  lemma StepKeepsInv(s: State, step: Step)
    requires Inv(s) && Enabled(s, step)
    ensures Inv(Apply(s, step))
  {
    StepKeepsPlaces(s, step);
    if step.CopyEnds? || step.Swap? || step.Callback? || step.CloseEnd? {
      CopierKeepsAccount(s, step);
    }
  }

  lemma CopierKeepsAccount(s: State, step: Step)
    requires Inv(s) && Enabled(s, step) && (step.CopyEnds? || step.Swap? || step.Callback? || step.CloseEnd?)
    ensures var s' := Apply(s, step);
      Launched(s') ==> (s'.done <==> Swapped(s'.upload) || Swapped(s'.download)) && Accountable(s')
  {
  }

  lemma {:induction false} RunKeepsInv(s: State, run: seq<Step>)
    requires Inv(s) && Executable(s, run)
    ensures Inv(Execute(s, run)) && Execute(s, run).packet == s.packet
    decreases |run|
  {
    if run != [] {
      StepKeepsInv(s, run[0]);
      RunKeepsInv(Apply(s, run[0]), run[1..]);
    }
  }

  lemma TwoEnds(closed: set<End>)
    requires Local in closed && Remote in closed
    ensures closed == BOTH
  {
    forall e | e in closed ensures e in BOTH {
      match e
      case Local =>
      case Remote =>
    }
  }

  /**
   Every interleaving: the callback never runs twice, and when the relay is over it has run
   exactly once and both ends are closed. A packet relay whose flag is set has called back, or
   exactly one copier owes the callback, and before that no end is closed; a TCP relay calls back
   only after both copiers have finished copying. A failed handshake starts no copier.
   */
  lemma EveryRelayClosesOnce(packet: bool, run: seq<Step>)
    requires Executable(Launch(packet), run)
    ensures var s := Execute(Launch(packet), run);
      && s.callbacks + Owed(s) <= 1
      && (Over(s) ==> s.callbacks == 1 && s.closed == BOTH)
      && (packet && s.done ==> s.callbacks + Owed(s) == 1)
      && (packet && !s.done ==> s.callbacks == 0 && s.closed == {})
      && (!packet && Launched(s) ==> (s.callbacks + Owed(s) == 1 <==> Swapped(s.upload) && Swapped(s.download)))
      && (!Launched(s) ==> s.upload == NotStarted && s.download == NotStarted)
  {
    RunKeepsInv(Launch(packet), run);
    var s := Execute(Launch(packet), run);
    if AllClosed(s) {
      TwoEnds(s.closed);
    }
  }

  // ----- Every relay ends -----

  function TodoLeft(todo: Todo): nat {
    match todo
    case Both => 2
    case Second => 1
    case Nothing => 0
  }

  /** A bound on the actions a copier can still take. */
  function CopierLeft(c: Copier): nat {
    match c
    case NotStarted => 8
    case Copying => 7
    case Releasing(todo) => 4 + TodoLeft(todo)
    case Owing => 3
    case ClosingBoth(todo) => TodoLeft(todo)
    case Finished => 0
  }

  function PhaseLeft(p: Phase): nat {
    match p
    case Handshaking(d) => if d == Upload then 6 else 5
    case HandshakeFailed(_) => 4
    case HandshakeOwing(_) => 3
    case HandshakeClosing(_, todo) => TodoLeft(todo)
    case Starting(d) => if d == Upload then 2 else 1
    case Running => 0
    case Aborted => 0
  }

  function Left(s: State): nat {
    PhaseLeft(s.phase) + CopierLeft(s.upload) + CopierLeft(s.download)
  }

  lemma StepsRunOut(s: State, step: Step)
    requires Enabled(s, step) && (s.phase.Starting? ==> Of(s, s.phase.d).NotStarted?)
    ensures Left(Apply(s, step)) < Left(s)
  {
    if step.CopyEnds? || step.Swap? || step.Callback? || step.CloseEnd? {
      CopierStepsRunOut(s, step);
    }
  }

  lemma CopierStepsRunOut(s: State, step: Step)
    requires Enabled(s, step) && (step.CopyEnds? || step.Swap? || step.Callback? || step.CloseEnd?)
    ensures var s' := Apply(s, step);
      && s'.phase == s.phase
      && CopierLeft(s'.upload) + CopierLeft(s'.download) < CopierLeft(s.upload) + CopierLeft(s.download)
  {
    assert CopierLeft(Of(Apply(s, step), step.d)) < CopierLeft(Of(s, step.d));
  }

  lemma {:induction false} RunIsShort(s: State, run: seq<Step>)
    requires Inv(s) && Executable(s, run)
    ensures |run| <= Left(s)
    decreases |run|
  {
    if run != [] {
      StepKeepsInv(s, run[0]);
      StepsRunOut(s, run[0]);
      RunIsShort(Apply(s, run[0]), run[1..]);
    }
  }

  /**
   However its steps are scheduled, a relay takes at most 22 of them, and one that cannot take
   another is over: it has called back once and closed both ends.
   */
  lemma EveryRelayEnds(packet: bool, run: seq<Step>)
    requires Executable(Launch(packet), run)
    ensures |run| <= 22
    ensures var s := Execute(Launch(packet), run);
      Over(s) <==> forall step :: !Enabled(s, step)
  {
    RunIsShort(Launch(packet), run);
    RunKeepsInv(Launch(packet), run);
    var s := Execute(Launch(packet), run);
    if !Over(s) {
      var step := NextStep(s);
      assert Enabled(s, step);
    }
  }

  /** A step that a relay which is not over can take. */
  lemma NextStep(s: State) returns (step: Step)
    requires Inv(s) && !Over(s)
    ensures Enabled(s, step)
  {
    if s.phase.Running? {
      var d := if s.upload != Finished then Upload else Download;
      match Of(s, d)
      case Copying => step := CopyEnds(d, Broken);
      case Releasing(todo) => step := if todo.Nothing? then Swap(d) else CloseEnd(d);
      case Owing => step := Callback(d);
      case ClosingBoth(_) => step := CloseEnd(d);
    } else if s.phase.Handshaking? {
      step := HandshakeOk;
    } else if s.phase.HandshakeFailed? {
      step := HandshakeSwap;
    } else if s.phase.HandshakeOwing? {
      step := HandshakeCallback;
    } else if s.phase.HandshakeClosing? {
      step := HandshakeClose;
    } else {
      step := StartCopier;
    }
  }

  // ----- Between two actions -----

  /** In a packet relay one copier can be finished, and both ends closed, before the callback has run. */
  lemma ClosedBeforeTheCallback()
    ensures exists run ::
      && Executable(Launch(true), run)
      && var s := Execute(Launch(true), run);
         s.download == Finished && s.closed == BOTH && s.callbacks == 0
  {
    var s := Launch(true);
    var s1 := Apply(Apply(s, StartCopier), StartCopier);
    assert s1 == State(true, Running, false, 0, {}, Copying, Copying);
    var s2 := s1.(upload := Releasing(Nothing), download := Releasing(Nothing));
    var s3 := s2.(done := true, upload := Owing, download := ClosingBoth(Both));
    var run := DownloadCloses(s3);
    Then(Apply(s2, Swap(Upload)), Swap(Download), run);
    run := [Swap(Download)] + run;
    Then(s2, Swap(Upload), run);
    run := [Swap(Upload)] + run;
    Then(Apply(s1, CopyEnds(Upload, HalfClosed)), CopyEnds(Download, HalfClosed), run);
    run := [CopyEnds(Download, HalfClosed)] + run;
    Then(s1, CopyEnds(Upload, HalfClosed), run);
    run := [CopyEnds(Upload, HalfClosed)] + run;
    Then(Apply(s, StartCopier), StartCopier, run);
    run := [StartCopier] + run;
    Then(s, StartCopier, run);
  }

  lemma DownloadCloses(s: State) returns (run: seq<Step>)
    requires s.download == ClosingBoth(Both)
    ensures Executable(s, run) && Execute(s, run) == s.(download := Finished, closed := BOTH)
  {
    var s1 := Apply(s, CloseEnd(Download));
    run := [CloseEnd(Download)] + [];
    Then(s1, CloseEnd(Download), []);
    Then(s, CloseEnd(Download), run);
    run := [CloseEnd(Download)] + run;
    TwoEnds(Apply(s1, CloseEnd(Download)).closed);
  }

  /** One step, then a run. */
  lemma Then(s: State, step: Step, run: seq<Step>)
    requires Enabled(s, step) && Executable(Apply(s, step), run)
    ensures Executable(s, [step] + run) && Execute(s, [step] + run) == Execute(Apply(s, step), run)
  {
    assert ([step] + run)[1..] == run;
  }
}

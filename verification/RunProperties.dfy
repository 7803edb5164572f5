/** What holds over every interleaving of the run engine with cancellations, decisions and timeouts. */
module RunProperties {
  import opened RunEngine
  import opened Wrappers

  // ---------------------------------------------------------------- the shape of the steps

  /** `done` finished steps, then `current` if there is one, then untouched steps. */
  predicate Shape(steps: seq<StepStatus>, done: nat, current: Option<StepStatus>) {
    && done + (if current.Some? then 1 else 0) <= |steps|
    && (forall i :: 0 <= i < done ==> steps[i] == StepDone)
    && (current.Some? ==> steps[done] == current.value)
    && (forall i :: done + (if current.Some? then 1 else 0) <= i < |steps| ==> steps[i] == StepPending)
  }

  /** Where the engine stands says how far the steps have got. */
  predicate InStep(s: RunState) {
    match s.pc
    case Starting => s.index == 0 && Shape(s.steps, 0, None)
    case Working(delays) => 1 <= delays <= 2 && (s.index == APPROVAL_STEP ==> delays == 1)
      && Shape(s.steps, s.index, Some(StepRunning))
    case Finishing => s.index != APPROVAL_STEP && Shape(s.steps, s.index, Some(StepRunning))
    case Between => s.index + 1 < |s.steps| && Shape(s.steps, s.index + 1, None)
    case Ended => EndShape(s)
    case _ => s.index == APPROVAL_STEP && Shape(s.steps, s.index, Some(StepBlocked))
  }

  predicate EndShape(s: RunState) {
    if Done in s.written then Shape(s.steps, |s.steps|, None)
    else if Failed in s.written then Shape(s.steps, APPROVAL_STEP, Some(StepFailed))
    else
      && s.stopped
      && (|| Shape(s.steps, 0, None)
          || Shape(s.steps, s.index, Some(StepRunning))
          || Shape(s.steps, s.index, Some(StepBlocked))
          || Shape(s.steps, s.index + 1, None))
  }

  /** The run has got past the step that asks for approval. */
  predicate PastApproval(s: RunState) {
    match s.pc
    case Between => s.index >= APPROVAL_STEP
    case Ended => Done in s.written && |s.steps| > APPROVAL_STEP
    case _ => s.index > APPROVAL_STEP
  }

  predicate Inv(s: RunState) {
    && InStep(s)
    && (s.resolver <==> s.pc.Waiting?)
    && (s.pc.Waiting? ==> s.timer)
    && (s.registered <==> !s.stopped && !s.pc.Ended?)
    && (Done in s.written || Failed in s.written ==> s.pc.Ended? && !s.stopped)
    && !(Done in s.written && Failed in s.written)
    && (s.pc.Decided? ==> s.resolvedWith == Some(s.pc.decision))
    && (PastApproval(s) ==> s.resolvedWith == Some(Approved))
    && (s.resolvedWith.Some? ==> PastApproval(s) || s.pc.Decided? || s.pc.Ended?)
    && (s.pc.Requesting? || s.pc.Waiting? ==> s.approval.Some?)
    && (Done in s.written ==> s.status == Done)
    && (Failed in s.written ==> s.status == Failed && s.resolvedWith == Some(Denied))
  }

  lemma StartedInv(n: nat)
    ensures Inv(Started(n))
  {
  }

  lemma LoopInv(s: RunState, i: nat)
    requires i <= |s.steps| && Shape(s.steps, i, None)
    requires i == |s.steps| || i == 0 || i == s.index + 1
    requires i == |s.steps| ==> s.stopped || (|s.steps| > APPROVAL_STEP ==> s.resolvedWith == Some(Approved))
    requires i > APPROVAL_STEP ==> s.resolvedWith == Some(Approved)
    requires s.resolvedWith.Some? ==> i > APPROVAL_STEP
    requires s.stopped && i == |s.steps| ==> i == 0 || i == s.index + 1
    requires !s.resolver && (s.registered <==> !s.stopped) && Done !in s.written && Failed !in s.written
    ensures Inv(Loop(s, i))
  {
  }

  lemma CompleteStepInv(s: RunState, current: StepStatus)
    requires Shape(s.steps, s.index, Some(current))
    requires s.index >= APPROVAL_STEP ==> s.resolvedWith == Some(Approved)
    requires s.resolvedWith.Some? ==> s.index >= APPROVAL_STEP
    requires !s.resolver && (s.registered <==> !s.stopped) && Done !in s.written && Failed !in s.written
    ensures Inv(CompleteStep(s))
  {
    hide Loop;
    var done := SetStep(s, StepDone);
    assert Shape(done.steps, s.index + 1, None);
    if s.index + 1 >= |s.steps| { LoopInv(done, s.index + 1); }
  }

  lemma AfterWorkInv(s: RunState)
    requires Shape(s.steps, s.index, Some(StepRunning))
    requires s.index > APPROVAL_STEP ==> s.resolvedWith == Some(Approved)
    requires s.resolvedWith.Some? ==> s.index > APPROVAL_STEP
    requires !s.resolver && (s.registered <==> !s.stopped) && Done !in s.written && Failed !in s.written
    ensures Inv(AfterWork(s))
  {
  }

  lemma ResumeInv(s: RunState)
    requires Inv(s)
    ensures Inv(ResumeF(s))
  {
    hide Loop, CompleteStep, AfterWork;
    match s.pc
    case Starting => LoopInv(SetStatus(s, Running), 0);
    case Working(delays) => if delays == 1 { AfterWorkInv(s); }
    case Finishing => CompleteStepInv(s, StepRunning);
    case Between => LoopInv(s, s.index + 1);
    case Decided(decision) =>
      if !s.stopped && decision.Approved? { CompleteStepInv(s, StepBlocked); }
    case _ =>
  }

  lemma StepInv(s: RunState, event: Event)
    requires Inv(s)
    ensures Inv(Step(s, event)) && |Step(s, event).steps| == |s.steps|
  {
    hide ResumeF;
    if event.Resume? { ResumeInv(s); }
  }

  lemma {:induction false} RunInv(s: RunState, events: seq<Event>)
    requires Inv(s)
    ensures Inv(Run(s, events)) && |Run(s, events).steps| == |s.steps|
    decreases |events|
  {
    hide Inv, Step;
    if events != [] {
      RunInv(s, events[..|events| - 1]);
      StepInv(Run(s, events[..|events| - 1]), events[|events| - 1]);
    }
  }

  ghost predicate ProgressShape(steps: seq<StepStatus>) {
    || (exists done :: Shape(steps, done, None))
    || (exists done :: Shape(steps, done, Some(StepRunning)))
    || (exists done :: Shape(steps, done, Some(StepBlocked)))
    || (exists done :: Shape(steps, done, Some(StepFailed)))
  }

  /** In every interleaving the steps are done, then at most one in progress, blocked or
      failed, then untouched; a run stored as done has all steps done, and one stored as
      failed has failed at the approval. */
  lemma StepsInOrder(n: nat, events: seq<Event>)
    ensures var s := Run(Started(n), events);
      && |s.steps| == n
      && ProgressShape(s.steps)
      && (Done in s.written ==> s.status == Done && Shape(s.steps, n, None))
      && (Failed in s.written ==> s.status == Failed && Shape(s.steps, APPROVAL_STEP, Some(StepFailed)))
      && !(Done in s.written && Failed in s.written)
  {
    hide Shape, Run;
    StartedInv(n);
    RunInv(Started(n), events);
  }

  // ---------------------------------------------------------------- what is stored as the run's status

  /** The approval was requested. */
  predicate Asked(s: RunState) {
    match s.pc
    case Starting => false
    case Working(_) => s.index > 2
    case Finishing => s.index > 2
    case Between => s.index >= 2
    case Ended => |s.steps| > 2
    case _ => true
  }

  /** The statuses stored so far say where the engine stands; unless it was stopped, the last
      of them is the status of the run. */
  predicate StatusInv(s: RunState) {
    match s.pc
    case Starting => s.written == [] && (!s.stopped ==> s.status == Queued)
    case Ended =>
      var before := if Asked(s) then [Running, WaitingForUser] else [Running];
      if s.stopped then s.written <= before
      else (s.written == before + [Done] && s.status == Done) || (s.written == before + [Failed] && s.status == Failed)
    case _ =>
      if Asked(s) then s.written == [Running, WaitingForUser] && (!s.stopped ==> s.status == WaitingForUser)
      else s.written == [Running] && (!s.stopped ==> s.status == Running)
  }

  /** The status while the engine does not ask for approval. */
  predicate Stored(s: RunState, asked: bool) {
    s.written == (if asked then [Running, WaitingForUser] else [Running])
    && (!s.stopped ==> s.status == if asked then WaitingForUser else Running)
  }

  lemma LoopStatus(s: RunState, i: nat)
    requires i <= |s.steps| && Stored(s, i > 2)
    ensures StatusInv(Loop(s, i))
  {
  }

  lemma CompleteStatus(s: RunState)
    requires s.index < |s.steps| && Stored(s, s.index >= 2)
    ensures StatusInv(CompleteStep(s))
  {
    hide Loop;
    var done := SetStep(s, StepDone);
    if s.index + 1 >= |s.steps| { LoopStatus(done, s.index + 1); }
  }

  lemma AfterWorkStatus(s: RunState)
    requires s.index < |s.steps| && Stored(s, s.index > 2) && (s.pc.Working? || s.pc.Finishing?)
    ensures StatusInv(AfterWork(s))
  {
  }

  lemma ResumeStatus(s: RunState)
    requires Inv(s) && StatusInv(s)
    ensures StatusInv(ResumeF(s))
  {
    hide Loop, CompleteStep, AfterWork;
    match s.pc
    case Starting => LoopStatus(SetStatus(s, Running), 0);
    case Working(delays) => if delays == 1 { AfterWorkStatus(s); }
    case Finishing => CompleteStatus(s);
    case Between => LoopStatus(s, s.index + 1);
    case Decided(decision) =>
      if !s.stopped && decision.Approved? { CompleteStatus(s); }
    case _ =>
  }

  lemma StatusStep(s: RunState, event: Event)
    requires Inv(s) && StatusInv(s)
    ensures StatusInv(Step(s, event))
  {
    hide ResumeF, Shape;
    if event.Resume? { ResumeStatus(s); }
  }

  lemma {:induction false} StatusRun(s: RunState, events: seq<Event>)
    requires Inv(s) && StatusInv(s)
    ensures StatusInv(Run(s, events))
    decreases |events|
  {
    hide Inv, StatusInv, Step;
    if events != [] {
      StatusRun(s, events[..|events| - 1]);
      RunInv(s, events[..|events| - 1]);
      StatusStep(Run(s, events[..|events| - 1]), events[|events| - 1]);
    }
  }

  /** In every interleaving: while the request is sent and while the engine waits for an answer
      the third step is blocked, and unless it was stopped the run waits for the user. The
      engine stores no statuses but running, waiting for the user, and then an outcome, in
      this order; a run of two steps or less is never asked about. */
  lemma StatusesStored(n: nat, events: seq<Event>)
    ensures var s := Run(Started(n), events);
      && (s.pc.Requesting? || s.pc.Waiting? ==>
            && n == |s.steps| > 2 && s.steps[2] == StepBlocked && s.approval.Some?
            && s.written == [Running, WaitingForUser] && (!s.stopped ==> s.status == WaitingForUser))
      && (s.pc.Working? && s.index <= 2 && !s.stopped ==> s.status == Running)
      && (if n > 2 then s.written <= [Running, WaitingForUser, Done] || s.written <= [Running, WaitingForUser, Failed]
          else s.written <= [Running, Done])
  {
    hide Run;
    StartedInv(n);
    RunInv(Started(n), events);
    StatusRun(Started(n), events);
    assert [Running, Failed][1] == Failed;
  }

  // ---------------------------------------------------------------- done needs an approval

  /** An approval that arrived while the engine was waiting for it. */
  ghost predicate ApprovedAt(s: RunState, events: seq<Event>, k: nat) {
    k < |events| && events[k] == Decide(Approved) && Run(s, events[..k]).pc.Waiting?
  }

  lemma OnlyApprovalApproves(s: RunState, event: Event)
    requires Inv(s) && Step(s, event).resolvedWith == Some(Approved)
    ensures s.resolvedWith == Some(Approved) || (event == Decide(Approved) && s.pc.Waiting?)
  {
  }

  lemma {:induction false} ApprovalHappened(s: RunState, events: seq<Event>)
    requires Inv(s) && s.resolvedWith != Some(Approved) && Run(s, events).resolvedWith == Some(Approved)
    ensures exists k: nat :: ApprovedAt(s, events, k)
    decreases |events|
  {
    hide Inv, Step;
    if events != [] {
      var init, last := events[..|events| - 1], events[|events| - 1];
      RunInv(s, init);
      OnlyApprovalApproves(Run(s, init), last);
      if Run(s, init).resolvedWith == Some(Approved) {
        ApprovalHappened(s, init);
        var k: nat :| ApprovedAt(s, init, k);
        assert events[..k] == init[..k];
        assert ApprovedAt(s, events, k);
      } else {
        assert ApprovedAt(s, events, |events| - 1);
      }
    }
  }

  /** The engine stores a run as done only after an approval resolved its wait. */
  lemma DoneWasApproved(n: nat, events: seq<Event>)
    requires n > APPROVAL_STEP
    ensures Done in Run(Started(n), events).written ==> exists k: nat :: ApprovedAt(Started(n), events, k)
  {
    hide Run;
    StartedInv(n);
    RunInv(Started(n), events);
    if Done in Run(Started(n), events).written { ApprovalHappened(Started(n), events); }
  }

  // ---------------------------------------------------------------- after a stop

  /** `more` adds to `written` no outcome. */
  predicate NoOutcomeAdded(written: seq<RunStatus>, more: seq<RunStatus>) {
    written <= more && forall i :: |written| <= i < |more| ==> more[i] in {Running, WaitingForUser}
  }

  lemma StoppedLoop(s: RunState, i: nat)
    requires s.stopped
    ensures Loop(s, i) == s.(registered := false, pc := Ended)
  {
  }

  lemma StoppedStep(s: RunState, event: Event)
    requires s.stopped
    ensures Step(s, event).stopped && NoOutcomeAdded(s.written, Step(s, event).written)
  {
    hide Loop;
    StoppedLoop(SetStatus(s, Running), 0);
    StoppedLoop(s, s.index + 1);
    StoppedLoop(SetStep(s, StepDone), s.index + 1);
  }

  /** Once stopped, the engine never again stores the run as done or failed. */
  lemma {:induction false} StoppedStoresNoOutcome(s: RunState, events: seq<Event>)
    requires s.stopped
    ensures Run(s, events).stopped && NoOutcomeAdded(s.written, Run(s, events).written)
    decreases |events|
  {
    hide Step;
    if events != [] {
      StoppedStoresNoOutcome(s, events[..|events| - 1]);
      StoppedStep(Run(s, events[..|events| - 1]), events[|events| - 1]);
    }
  }

  // ---------------------------------------------------------------- when a cancellation stays

  /** The engine stores another status at the end of this await, stopped or not. */
  predicate AboutToStore(s: RunState) {
    s.pc.Starting? || (s.pc.Working? && s.index == APPROVAL_STEP)
  }

  predicate CanceledForGood(s: RunState) {
    s.status == Canceled && (s.stopped || s.pc.Ended?) && !AboutToStore(s)
  }

  lemma CanceledStep(s: RunState, event: Event)
    requires Inv(s) && CanceledForGood(s)
    ensures CanceledForGood(Step(s, event))
  {
  }

  lemma {:induction false} StaysCanceled(s: RunState, events: seq<Event>)
    requires Inv(s) && CanceledForGood(s)
    ensures CanceledForGood(Run(s, events))
    decreases |events|
  {
    hide Inv, Step, CanceledForGood;
    if events != [] {
      StaysCanceled(s, events[..|events| - 1]);
      RunInv(s, events[..|events| - 1]);
      CanceledStep(Run(s, events[..|events| - 1]), events[|events| - 1]);
    }
  }

  /** A cancellation is final unless it comes while the run's details are being sent or the
      approval request is being prepared: then the engine stores its own status over it. */
  lemma CancellationStaysIff(s: RunState)
    requires Inv(s) && s.status in {Queued, Running, WaitingForUser}
    ensures (forall events :: Run(CancelF(s), events).status == Canceled) <==> !AboutToStore(s)
  {
    hide Run;
    var canceled := CancelF(s);
    StepInv(s, Cancel);
    if AboutToStore(s) {
      OneStep(canceled, Resume);
      assert Run(canceled, [Resume]).status != Canceled;
    } else {
      forall events ensures Run(canceled, events).status == Canceled { StaysCanceled(canceled, events); }
    }
  }

  lemma OneStep(s: RunState, event: Event)
    ensures Run(s, [event]) == Step(s, event)
  {
    assert [event][..0] == [];
    assert Run(s, []) == s;
  }

  // ---------------------------------------------------------------- decisions

  /** A decision moves the engine exactly when it is waiting; earlier it is only recorded. */
  lemma DecisionCountsIffWaiting(s: RunState, decision: Decision)
    requires Inv(s) && s.registered && s.approval.Some?
    ensures DecideF(s, decision).approval == Some(Closed(decision))
    ensures DecideF(s, decision).pc != s.pc <==> s.pc.Waiting?
    ensures s.pc.Waiting? ==> DecideF(s, decision).pc == Decided(decision)
    ensures !s.pc.Waiting? ==> DecideF(s, decision) == s.(approval := Some(Closed(decision)))
  {
  }

  /** Everything but an approval denies: a refused request also on the record, a timeout and a
      cancellation only to a waiting engine; and an engine that has gone hears no decision. */
  lemma OthersDeny(s: RunState, decision: Decision)
    requires Inv(s)
    ensures s.approval.Some? ==> RejectF(s).approval == Some(Closed(Denied))
    ensures s.approval.None? ==> RejectF(s) == s
    ensures RejectF(s).pc == if s.pc.Waiting? && !s.stopped then Decided(Denied) else s.pc
    ensures TimeoutF(s).approval == s.approval && TimeoutF(s).pc == if s.pc.Waiting? then Decided(Denied) else s.pc
    ensures s.status in {Queued, Running, WaitingForUser} ==>
      && CancelF(s).status == Canceled && CancelF(s).approval == s.approval && !CancelF(s).registered
      && CancelF(s).pc == if s.pc.Waiting? && !s.stopped then Decided(Denied) else s.pc
    ensures s.status in {Done, Failed, Canceled} ==> CancelF(s) == s
    ensures !s.registered ==> DecideF(s, decision) == s
  {
    hide InStep;
  }

  /** At the request of approval, about to wait. */
  predicate AtRequest(s: RunState) {
    Inv(s) && s.pc.Requesting? && s.registered && s.approval.Some?
  }

  /** An approval given while the request is still being sent is lost: the record says
      approved, and the run fails at the timeout. */
  lemma EarlyApprovalIsLost(s: RunState)
    requires AtRequest(s)
    ensures var end := Step(Step(Step(Step(s, Decide(Approved)), Resume), Timeout), Resume);
      end.approval == Some(Closed(Approved)) && end.status == Failed && end.steps[APPROVAL_STEP] == StepFailed
  {
  }

  // ---------------------------------------------------------------- every run ends

  /** How much the engine still has to go through at most. */
  function Left(s: RunState): int {
    var from := 10 * (|s.steps| - s.index);
    match s.pc
    case Starting => 10 * |s.steps| + 10
    case Working(delays) => from + 4 + delays
    case Finishing => from + 1
    case Between => from
    case Requesting => from + 4
    case Waiting => from + 3
    case Decided(_) => from + 2
    case Ended => 0
  }

  lemma LoopLeft(s: RunState, i: nat)
    requires i <= |s.steps|
    ensures Left(Loop(s, i)) <= 10 * (|s.steps| - i) + 6
  {
  }

  lemma CompleteStepLeft(s: RunState)
    requires s.index < |s.steps|
    ensures Left(CompleteStep(s)) <= 10 * (|s.steps| - s.index)
  {
  }

  lemma AfterWorkLeft(s: RunState)
    requires s.index < |s.steps|
    ensures Left(AfterWork(s)) <= 10 * (|s.steps| - s.index) + 4
  {
  }

  lemma ResumeGoesOn(s: RunState)
    requires Inv(s)
    ensures Left(s) >= 0
    ensures if s.pc.Ended? || s.pc.Waiting? then ResumeF(s) == s else Left(ResumeF(s)) < Left(s)
  {
    hide Loop, CompleteStep, AfterWork;
    match s.pc
    case Starting => LoopLeft(SetStatus(s, Running), 0);
    case Working(delays) => AfterWorkLeft(s);
    case Finishing => CompleteStepLeft(s);
    case Between => LoopLeft(s, s.index + 1);
    case Decided(decision) => CompleteStepLeft(s);
    case _ =>
  }

  /** No deadlock: until it has ended, the engine either goes on by itself or is waiting
      with its timer running, and no event makes it go back. */
  lemma AlwaysGoesOn(s: RunState)
    requires Inv(s)
    ensures Left(s) >= 0
    ensures !s.pc.Ended? && !s.pc.Waiting? ==> Left(ResumeF(s)) < Left(s)
    ensures s.pc.Waiting? ==> s.timer && Left(TimeoutF(s)) < Left(s)
    ensures forall event :: Left(Step(s, event)) <= Left(s)
  {
    hide Shape, ResumeF, InStep;
    ResumeGoesOn(s);
  }

  /** Events that take the engine on. */
  function Moves(s: RunState, events: seq<Event>): nat {
    if events == [] then 0
    else
      var before := Run(s, events[..|events| - 1]);
      Moves(s, events[..|events| - 1]) + if Left(Step(before, events[|events| - 1])) < Left(before) then 1 else 0
  }

  /** Whatever the interleaving, the engine goes on a bounded number of times. */
  lemma {:induction false} BoundedMoves(s: RunState, events: seq<Event>)
    requires Inv(s)
    ensures Moves(s, events) <= Left(s) - Left(Run(s, events))
    ensures Left(Run(s, events)) >= 0
    decreases |events|
  {
    hide Inv, Step, Left;
    if events == [] {
      AlwaysGoesOn(s);
    } else {
      var init, last := events[..|events| - 1], events[|events| - 1];
      BoundedMoves(s, init);
      RunInv(s, events);
      RunInv(s, init);
      AlwaysGoesOn(Run(s, init));
      AlwaysGoesOn(Run(s, events));
      assert Left(Step(Run(s, init), last)) <= Left(Run(s, init));
    }
  }

  // ---------------------------------------------------------------- a run left alone

  function ResumeTimes(s: RunState, m: nat): RunState
    decreases m
  {
    if m == 0 then s else ResumeTimes(ResumeF(s), m - 1)
  }

  lemma ResumeMeans(s: RunState)
    requires Inv(s)
    ensures var t := ResumeF(s);
      && t.stopped == s.stopped && t.resolvedWith == s.resolvedWith && |t.steps| == |s.steps|
      && (s.resolvedWith.Some? ==> t.approval == s.approval)
  {
    hide Shape;
  }

  /** Undisturbed, the engine comes to its wait or to an end. */
  lemma {:induction false} GoesOn(s: RunState) returns (m: nat)
    requires Inv(s) && !s.stopped
    ensures var t := ResumeTimes(s, m);
      && Inv(t) && !t.stopped && t.resolvedWith == s.resolvedWith && |t.steps| == |s.steps|
      && (t.pc.Ended? || t.pc.Waiting?)
      && (StatusInv(s) ==> StatusInv(t)) && (s.resolvedWith.Some? ==> t.approval == s.approval)
    decreases Left(s)
  {
    hide Inv, StatusInv, ResumeF;
    if s.pc.Ended? || s.pc.Waiting? {
      m := 0;
    } else {
      ResumeInv(s);
      ResumeMeans(s);
      if StatusInv(s) { ResumeStatus(s); }
      AlwaysGoesOn(s);
      AlwaysGoesOn(ResumeF(s));
      m := GoesOn(ResumeF(s));
      m := m + 1;
    }
  }

  lemma WaitsUndecided(s: RunState)
    requires Inv(s) && s.pc.Waiting?
    ensures s.resolvedWith.None?
  {
  }

  lemma EndsAsDecided(s: RunState)
    requires Inv(s) && s.pc.Ended? && !s.stopped && |s.steps| > APPROVAL_STEP
    ensures s.resolvedWith == Some(Approved) ==> s.status == Done
    ensures s.resolvedWith == Some(Denied) ==> s.status == Failed
    ensures s.resolvedWith.Some?
  {
  }

  /** A run that is left alone comes to its wait, and then ends as the decision says:
      done with every step done if approved, failed if denied or timed out. */
  lemma RunEndsAsDecided(n: nat, decision: Decision) returns (before: nat, after: nat)
    requires n > APPROVAL_STEP
    ensures var waiting := ResumeTimes(Started(n), before);
      var end := ResumeTimes(DecideF(waiting, decision), after);
      && waiting.pc.Waiting? && waiting.written == [Running, WaitingForUser] && waiting.status == WaitingForUser
      && end.pc.Ended? && end.approval == Some(Closed(decision)) && |end.steps| == n
      && end.written == [Running, WaitingForUser, if decision.Approved? then Done else Failed]
      && end.status == (if decision.Approved? then Done else Failed)
      && (forall i :: 0 <= i < n ==>
            end.steps[i] ==
            if decision.Approved? || i < 2 then StepDone else if i == 2 then StepFailed else StepPending)
  {
    hide Inv, StatusInv, ResumeTimes, ResumeF;
    StartedInv(n);
    before := GoesOn(Started(n));
    StartedStatus(n);
    var waiting := ResumeTimes(Started(n), before);
    if waiting.pc.Ended? {
      EndsAsDecided(waiting);
      assert false;
    }
    WaitsForUser(waiting);
    var decided := DecideF(waiting, decision);
    StepInv(waiting, Decide(decision));
    StatusStep(waiting, Decide(decision));
    WaitIsOpen(waiting, decision);
    after := GoesOn(decided);
    var end := ResumeTimes(decided, after);
    if end.pc.Waiting? {
      WaitsUndecided(end);
      assert false;
    }
    EndsAsDecided(end);
    EndsStored(end);
  }

  lemma StartedStatus(n: nat)
    ensures StatusInv(Started(n))
  {
  }

  lemma WaitsForUser(s: RunState)
    requires Inv(s) && StatusInv(s) && s.pc.Waiting? && !s.stopped
    ensures s.written == [Running, WaitingForUser] && s.status == WaitingForUser
  {
    hide Shape;
  }

  lemma EndsStored(s: RunState)
    requires Inv(s) && StatusInv(s) && s.pc.Ended? && !s.stopped && |s.steps| > APPROVAL_STEP
    ensures s.written == [Running, WaitingForUser, s.status]
    ensures s.status == Done ==> forall i :: 0 <= i < |s.steps| ==> s.steps[i] == StepDone
    ensures s.status == Failed ==>
      forall i :: 0 <= i < |s.steps| ==>
        s.steps[i] == if i < 2 then StepDone else if i == 2 then StepFailed else StepPending
  {
    assert s.written[2] == s.status;
  }

  lemma WaitIsOpen(s: RunState, decision: Decision)
    requires Inv(s) && s.pc.Waiting? && !s.stopped
    ensures var t := DecideF(s, decision);
      t.resolvedWith == Some(decision) && !t.stopped && t.approval == Some(Closed(decision)) && |t.steps| == |s.steps|
  {
  }

  lemma MoreTimes(s: RunState, m: nat, k: nat)
    ensures ResumeTimes(s, m + k) == ResumeTimes(ResumeTimes(s, m), k)
    decreases m
  {
    if m > 0 { MoreTimes(ResumeF(s), m - 1, k); }
  }

  /** The engine of a run of `n` steps stands at this await of this step. */
  predicate StandsAt(s: RunState, n: nat, index: nat, pc: Pc) {
    s.index == index && s.pc == pc && |s.steps| == n && !s.stopped
  }

  /** How it goes on from each await. */
  lemma GoesTo(s: RunState, n: nat)
    requires |s.steps| == n && s.index < n && !s.stopped
    ensures var t := ResumeF(s);
      && (s.pc.Starting? && n > 0 ==> StandsAt(t, n, 0, Working(2)))
      && (s.pc == Working(2) ==> StandsAt(t, n, s.index, Working(1)))
      && (s.pc == Working(1) ==> StandsAt(t, n, s.index, if s.index == 2 then Requesting else Finishing))
      && (s.pc.Finishing? || s.pc == Decided(Approved) ==>
            if s.index + 1 < n then StandsAt(t, n, s.index, Between) else t.pc.Ended?)
      && (s.pc.Between? && s.index + 1 < n ==>
            StandsAt(t, n, s.index + 1,
                     match s.index + 1
                     case 0 => Working(2)
                     case 1 => Working(2)
                     case 2 => Working(1)
                     case 3 => Working(2)
                     case _ => Finishing))
      && (s.pc.Requesting? ==> StandsAt(t, n, s.index, Waiting))
      && (s.pc == Decided(Denied) ==> t.pc.Ended?)
  {
  }

  lemma OneTime(s: RunState, m: nat)
    ensures ResumeTimes(s, m + 1) == ResumeF(ResumeTimes(s, m))
  {
    MoreTimes(s, m, 1);
  }

  /** The awaits of an undisturbed run, up to the request: sending its details, two for the work
      of each of the first two steps and one for that of the third, one before each of those
      two is done and one after it. */
  lemma AwaitsToRequest(n: nat)
    requires n > 2
    ensures StandsAt(ResumeTimes(Started(n), 10), n, 2, Requesting)
            && StandsAt(ResumeTimes(Started(n), 11), n, 2, Waiting)
    ensures forall m :: 0 <= m < 10 ==> !ResumeTimes(Started(n), m).pc.Requesting?
  {
    hide ResumeF, ResumeTimes;
    StartedStands(n);
    for m: nat := 0 to 11
      invariant m <= 11
      invariant forall k :: 0 <= k <= m ==> StandsAt(ResumeTimes(Started(n), k), n, Awaits(k).0, Awaits(k).1)
    {
      GoesTo(ResumeTimes(Started(n), m), n);
      OneTime(Started(n), m);
    }
    assert Awaits(10) == (2, Requesting) && Awaits(11) == (2, Waiting);
    assert forall k :: 0 <= k < 10 ==> !Awaits(k).1.Requesting?;
  }

  function Awaits(m: nat): (nat, Pc) {
    match m
    case 0 => (0, Starting)
    case 1 => (0, Working(2))
    case 2 => (0, Working(1))
    case 3 => (0, Finishing)
    case 4 => (0, Between)
    case 5 => (1, Working(2))
    case 6 => (1, Working(1))
    case 7 => (1, Finishing)
    case 8 => (1, Between)
    case 9 => (2, Working(1))
    case 10 => (2, Requesting)
    case _ => (2, Waiting)
  }

  lemma StartedStands(n: nat)
    ensures StandsAt(ResumeTimes(Started(n), 0), n, 0, Starting)
  {
  }

  lemma WaitFollowsRequest(s: RunState)
    requires Inv(s) && !s.pc.Waiting? && ResumeF(s).pc.Waiting?
    ensures s.pc.Requesting?
  {
    hide Inv;
  }

  lemma {:induction false} RequestBeforeWait(s: RunState, m: nat) returns (k: nat)
    requires Inv(s) && !s.stopped && !s.pc.Waiting? && ResumeTimes(s, m).pc.Waiting?
    ensures k < m && AtRequest(ResumeTimes(s, k))
    decreases m
  {
    hide Inv, ResumeF;
    ResumeInv(s);
    if ResumeF(s).pc.Waiting? {
      k := 0;
      WaitFollowsRequest(s);
      RequestIsOpen(s);
    } else {
      k := RequestBeforeWait(ResumeF(s), m - 1);
      k := k + 1;
    }
  }

  lemma RequestIsOpen(s: RunState)
    requires Inv(s) && !s.stopped && s.pc.Requesting?
    ensures AtRequest(s)
  {
  }

  /** Every run can be lost like that: its engine comes to the request, and then an approval
      that is too early, though recorded, leaves the run failed. */
  lemma EarlyApprovalLosesRun(n: nat) returns (before: nat)
    requires n > APPROVAL_STEP
    ensures var request := ResumeTimes(Started(n), before);
      var end := Step(Step(Step(Step(request, Decide(Approved)), Resume), Timeout), Resume);
      request.pc.Requesting? && end.approval == Some(Closed(Approved)) && end.status == Failed
  {
    hide Inv, ResumeTimes, Step;
    var waiting, after := RunEndsAsDecided(n, Approved);
    StartedInv(n);
    before := RequestBeforeWait(Started(n), waiting);
    EarlyApprovalIsLost(ResumeTimes(Started(n), before));
  }
}

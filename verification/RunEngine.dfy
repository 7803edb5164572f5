/**
 The engine that drives one manual run through its steps. It is an asynchronous function:
 between two of its awaits nothing else runs, and while it waits the run may be canceled, a
 decision may arrive, or the approval may time out. `Pc` names the await it stands at.
 */
module RunEngine {
  import opened Wrappers

  datatype RunStatus = Queued | Running | WaitingForUser | Done | Failed | Canceled

  datatype StepStatus = StepPending | StepRunning | StepDone | StepFailed | StepBlocked

  datatype Decision = Approved | Denied

  /** The run's approval record: no decision yet, or the last one. */
  datatype Approval = Open | Closed(decision: Decision)

  datatype Pc =
    | Starting                // run.details is being sent
    | Working(delays: nat)    // delays left in the step's work
    | Finishing               // the delay before a step is marked done
    | Between                 // the delay before the next step
    | Requesting              // approval.request is being sent
    | Waiting                 // for the decision
    | Decided(decision: Decision)
    | Ended

  /** The stored run and the engine's own variables. `written` lists the run statuses the
      engine has stored; `resolvedWith` is the decision its wait was resolved with. */
  datatype RunState = RunState(
    status: RunStatus,
    steps: seq<StepStatus>,
    approval: Option<Approval>,
    registered: bool,
    stopped: bool,
    resolver: bool,
    timer: bool,
    index: nat,
    pc: Pc,
    written: seq<RunStatus>,
    resolvedWith: Option<Decision>)

  const APPROVAL_STEP: nat := 2

  function WorkDelays(index: nat): nat {
    match index
    case 0 => 2
    case 1 => 2
    case 2 => 1
    case 3 => 2
    case _ => 0
  }

  // ---------------------------------------------------------------- between two awaits

  function SetStatus(s: RunState, status: RunStatus): RunState {
    s.(status := status, written := s.written + [status])
  }

  /** A step index that is not there is ignored, as an unknown step id is. */
  function SetStep(s: RunState, status: StepStatus): (r: RunState)
    ensures |r.steps| == |s.steps| && r.stopped == s.stopped && r.resolvedWith == s.resolvedWith
  {
    if s.index < |s.steps| then s.(steps := s.steps[s.index := status]) else s
  }

  function End(s: RunState, outcome: RunStatus): RunState {
    (if s.stopped then s else SetStatus(s, outcome)).(registered := false, pc := Ended)
  }

  function RequestApproval(s: RunState): RunState {
    SetStep(SetStatus(s.(approval := Some(Open)), WaitingForUser), StepBlocked).(pc := Requesting)
  }

  function AfterWork(s: RunState): (r: RunState)
    ensures |r.steps| == |s.steps| && r.stopped == s.stopped && r.resolvedWith == s.resolvedWith
  {
    if s.index == APPROVAL_STEP then RequestApproval(s)
    else if s.stopped then End(s, Failed)
    else s.(pc := Finishing)
  }

  function BeginStep(s: RunState): (r: RunState)
    ensures |r.steps| == |s.steps| && r.stopped == s.stopped && r.resolvedWith == s.resolvedWith
  {
    var running := SetStep(s, StepRunning);
    if WorkDelays(s.index) == 0 then AfterWork(running) else running.(pc := Working(WorkDelays(s.index)))
  }

  function Loop(s: RunState, i: nat): (r: RunState)
    ensures |r.steps| == |s.steps| && r.stopped == s.stopped && r.resolvedWith == s.resolvedWith
  {
    if i >= |s.steps| || s.stopped then End(s, Done) else BeginStep(s.(index := i))
  }

  function CompleteStep(s: RunState): (r: RunState)
    ensures |r.steps| == |s.steps| && r.stopped == s.stopped && r.resolvedWith == s.resolvedWith
  {
    var done := SetStep(s, StepDone);
    if s.index + 1 < |s.steps| then done.(pc := Between) else Loop(done, s.index + 1)
  }

  // ---------------------------------------------------------------- the steps of a run

  datatype Event = Resume | Cancel | Decide(decision: Decision) | Reject | Timeout

  function ResumeF(s: RunState): (r: RunState)
    ensures |r.steps| == |s.steps| && r.stopped == s.stopped && r.resolvedWith == s.resolvedWith
  {
    match s.pc
    case Starting => Loop(SetStatus(s, Running), 0)
    case Working(delays) => if delays > 1 then s.(pc := Working(delays - 1)) else AfterWork(s)
    case Finishing => CompleteStep(s)
    case Between => Loop(s, s.index + 1)
    case Requesting => s.(pc := Waiting, resolver := true, timer := true)
    case Decided(decision) =>
      if s.stopped then End(s, Failed)
      else if decision.Approved? then CompleteStep(s)
      else End(SetStep(s, StepFailed), Failed)
    case _ => s
  }

  function Resolve(s: RunState, decision: Decision): RunState {
    if s.resolver then s.(resolver := false, pc := Decided(decision), resolvedWith := Some(decision)) else s
  }

  function CancelF(s: RunState): RunState {
    if s.status !in {Queued, Running, WaitingForUser} then s
    else if !s.registered then s.(status := Canceled)
    else Resolve(s.(status := Canceled, stopped := true), Denied).(registered := false)
  }

  /** A decision from the device reaches the engine only while it is registered. */
  function DecideF(s: RunState, decision: Decision): RunState {
    if s.approval.None? || !s.registered then s
    else Resolve(s.(approval := Some(Closed(decision))), decision)
  }

  /** The device refused the approval request. */
  function RejectF(s: RunState): RunState {
    if s.approval.None? then s
    else if s.registered then Resolve(s.(approval := Some(Closed(Denied))), Denied)
    else s.(approval := Some(Closed(Denied)))
  }

  function TimeoutF(s: RunState): RunState {
    if s.timer then Resolve(s.(timer := false), Denied) else s
  }

  function Step(s: RunState, event: Event): RunState {
    match event
    case Resume => ResumeF(s)
    case Cancel => CancelF(s)
    case Decide(decision) => DecideF(s, decision)
    case Reject => RejectF(s)
    case Timeout => TimeoutF(s)
  }

  function Run(s: RunState, events: seq<Event>): RunState {
    if events == [] then s else Step(Run(s, events[..|events| - 1]), events[|events| - 1])
  }

  function AllPending(n: nat): seq<StepStatus> {
    seq(n, _ => StepPending)
  }

  /** A queued run whose engine has just been registered and started. */
  function Started(n: nat): RunState {
    RunState(Queued, AllPending(n), None, true, false, false, false, 0, Starting, [], None)
  }

  // ---------------------------------------------------------------- the engine

  class ManualRun {
    var status: RunStatus
    var steps: seq<StepStatus>
    var approval: Option<Approval>
    var registered: bool
    var stopped: bool
    var resolver: bool
    var timer: bool
    var index: nat
    var pc: Pc
    ghost var written: seq<RunStatus>
    ghost var resolvedWith: Option<Decision>

    ghost function State(): RunState reads this {
      RunState(status, steps, approval, registered, stopped, resolver, timer, index, pc, written, resolvedWith)
    }

    /** device.run.accept: registers a new engine and runs it to its first await. */
    constructor Accept(n: nat)
      ensures State() == Started(n)
    {
      status, steps, approval := Queued, AllPending(n), None;
      registered, stopped, resolver, timer := true, false, false, false;
      index, pc := 0, Starting;
      written, resolvedWith := [], None;
    }

    method UpdateStatus(value: RunStatus)
      modifies this
      ensures State() == SetStatus(old(State()), value)
    {
      status := value;
      written := written + [value];
    }

    method UpdateStep(value: StepStatus)
      modifies this
      ensures State() == SetStep(old(State()), value)
    {
      if index < |steps| { steps := steps[index := value]; }
    }

    method Finish(outcome: RunStatus)
      modifies this
      ensures State() == End(old(State()), outcome)
    {
      if !stopped { UpdateStatus(outcome); }
      registered := false;
      pc := Ended;
    }

    /** executeStep from the end of the step's own work on. */
    method Worked()
      modifies this
      ensures State() == AfterWork(old(State()))
    {
      if index == APPROVAL_STEP {
        approval := Some(Open);
        UpdateStatus(WaitingForUser);
        UpdateStep(StepBlocked);
        pc := Requesting;
      } else if stopped {
        Finish(Failed);
      } else {
        pc := Finishing;
      }
    }

    /** The loop over the steps, from step `i` to the next await. */
    method NextStep(i: nat)
      modifies this
      ensures State() == Loop(old(State()), i)
    {
      if i >= |steps| || stopped {
        Finish(Done);
        return;
      }
      index := i;
      UpdateStep(StepRunning);
      if WorkDelays(index) == 0 {
        Worked();
      } else {
        pc := Working(WorkDelays(index));
      }
    }

    method StepSucceeded()
      modifies this
      ensures State() == CompleteStep(old(State()))
    {
      UpdateStep(StepDone);
      if index + 1 < |steps| {
        pc := Between;
      } else {
        NextStep(index + 1);
      }
    }

    /** What the engine awaits has come: it runs to its next await. */
    method Resume()
      modifies this
      ensures State() == ResumeF(old(State()))
    {
      match pc
      case Starting =>
        UpdateStatus(Running);
        NextStep(0);
      case Working(delays) =>
        if delays > 1 {
          pc := Working(delays - 1);
        } else {
          Worked();
        }
      case Finishing =>
        StepSucceeded();
      case Between =>
        NextStep(index + 1);
      case Requesting =>
        resolver, timer := true, true;
        pc := Waiting;
      case Decided(decision) =>
        if stopped {
          Finish(Failed);
        } else if decision.Approved? {
          StepSucceeded();
        } else {
          UpdateStep(StepFailed);
          Finish(Failed);
        }
      case Waiting =>
      case Ended =>
    }

    method ResolveWait(decision: Decision)
      modifies this
      ensures State() == Resolve(old(State()), decision)
    {
      if resolver {
        resolver := false;
        pc := Decided(decision);
        resolvedWith := Some(decision);
      }
    }

    method Stop()
      modifies this
      ensures State() == Resolve(old(State()).(stopped := true), Denied)
    {
      stopped := true;
      ResolveWait(Denied);
    }

    method Cancel() returns (canceled: bool)
      modifies this
      ensures State() == CancelF(old(State()))
      ensures canceled <==> old(status) in {Queued, Running, WaitingForUser}
    {
      if status != Queued && status != Running && status != WaitingForUser { return false; }
      status := Canceled;
      if registered {
        Stop();
        registered := false;
      }
      return true;
    }

    method HandleApproval(decision: Decision)
      requires registered
      modifies this
      ensures State() == DecideF(old(State()), decision)
    {
      if approval.Some? {
        approval := Some(Closed(decision));
        ResolveWait(decision);
      }
    }

    /** A refused approval.request: through the engine while there is one. */
    method ApprovalRejected()
      modifies this
      ensures State() == RejectF(old(State()))
    {
      if registered {
        HandleApproval(Denied);
      } else if approval.Some? {
        approval := Some(Closed(Denied));
      }
    }

    /** The timer of the wait fires. */
    method ApprovalTimeout()
      requires timer
      modifies this
      ensures State() == TimeoutF(old(State()))
    {
      timer := false;
      ResolveWait(Denied);
    }
  }
}

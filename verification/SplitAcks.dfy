/**
 The ack handler as the service runs it: it clears the in-flight marker first and stores the
 ack later, and the gateway loop may come round in between. Each marker that is cleared ahead
 of its ack gives one send away without a backoff, and no more than that.
 */
module SplitAcks {
  import opened Wrappers
  import opened RedisQueue
  import opened DeviceCommands
  import opened Gateway
  import opened SendBudget
  import opened SendsAttained

  datatype SplitStep = Whole(step: Step) | ClearMarker(c: CommandId) | StoreAck(ack: AckMessage)

  /** A marker that is cleared ahead of its ack is entered in the log as an interruption. */
  function SplitStepF(n: Node, step: SplitStep): Node {
    match step
    case Whole(whole) => StepF(n, whole)
    case ClearMarker(c) => if Flying(n, c) then n.(inFlight := None, log := n.log + [Interrupted]) else n
    case StoreAck(ack) => StoreF(n, ack)
  }

  function StoreF(n: Node, ack: AckMessage): Node {
    var (db, outcome) := AckF(n.db, ack);
    n.(db := db,
       log := n.log + [Acknowledged(ack.commandId)] + if outcome.Terminal() then [Outcome(ack.commandId)] else [])
  }

  function SplitRunF(n: Node, steps: seq<SplitStep>): Node {
    if steps == [] then n else SplitStepF(SplitRunF(n, steps[..|steps| - 1]), steps[|steps| - 1])
  }

  /** The two halves, one right after the other, are the whole handler. */
  lemma HalvesAreWhole(n: Node, ack: AckMessage)
    ensures var halves := SplitStepF(SplitStepF(n, ClearMarker(ack.commandId)), StoreAck(ack));
      var whole := StepF(n, Arrive(ack));
      && halves == whole.(log := halves.log)
      && halves.log[if Flying(n, ack.commandId) then |n.log| + 1 else |n.log|..] == whole.log[|n.log|..]
  {
    hide AckF;
    var added := [Acknowledged(ack.commandId)] +
                 if AckF(n.db, ack).1.Terminal() then [Outcome(ack.commandId)] else [];
    var log := if Flying(n, ack.commandId) then n.log + [Interrupted] else n.log;
    assert (log + added)[|log|..] == added && (n.log + added)[|n.log|..] == added;
    assert SplitStepF(SplitStepF(n, ClearMarker(ack.commandId)), StoreAck(ack)).log == log + added;
    assert StepF(n, Arrive(ack)).log == n.log + added;
  }

  // ---------------------------------------------------------------- the bound with split acks

  lemma LedgerRetry(l: Ledger)
    requires l.Within()
    ensures l.(attempts := l.attempts + 1, availableAt := l.now + RetryDelayMs(l.attempts + 1)).Within()
  {
    if !l.flying { LedgerSchedule(l); }
  }

  lemma ClearKeeps(n: Node)
    requires NodeInv(n)
    ensures NodeInv(n.(inFlight := None, log := n.log + [Interrupted]))
  {
    InterruptKeeps(n, n.running);
  }

  lemma RetriedLedger(n: Node, c: CommandId)
    requires NodeInv(n) && c in n.db.issued
    ensures LedgerOf(n.(db := ScheduleRetryF(n.db, c)), c).Within()
  {
    hide Inv, Ordered, Offset, SendCount, LastSend, Interruptions, RetryDelayMs;
    var l := LedgerOf(n, c);
    assert l.Within() && CommandOk(n.db, c);
    LedgerRetry(l);
    hide NodeInv, Quiet;
  }

  lemma RetryKeeps(n: Node, c: CommandId)
    requires NodeInv(n) && c in n.db.issued
    ensures NodeInv(n.(db := ScheduleRetryF(n.db, c)))
  {
    hide Quiet, Spares, ScheduleRetryF;
    var t := ScheduleRetryF(n.db, c);
    ScheduleQuiet(n.db, c);
    RetriedLedger(n, c);
    forall d | d in t.issued ensures LedgerOf(n.(db := t), d).Within() {
      if d != c { SparedLedger(n, t, {c}, d); }
    }
  }

  lemma StoredAckKeeps(n: Node, ack: AckMessage)
    requires NodeInv(n)
    ensures NodeInv(n.(db := AckF(n.db, ack).0))
  {
    hide Quiet, AckF, Spares, ScheduleRetryF;
    var (t, outcome) := AckF(n.db, ack);
    var c := ack.commandId;
    AckQuiet(n.db, ack);
    AckIssued(n.db, ack);
    if outcome.Retry? {
      RetryKeeps(n, c);
    } else {
      forall d | d in t.issued ensures LedgerOf(n.(db := t), d).Within() {
        if d != c { SparedLedger(n, t, {c}, d); } else { DeadLedger(n, n.(db := t), c); }
      }
    }
  }

  lemma StoreKeeps(n: Node, ack: AckMessage)
    requires NodeInv(n)
    ensures NodeInv(StoreF(n, ack))
  {
    hide NodeInv, AckF;
    StoredAckKeeps(n, ack);
    var (db, outcome) := AckF(n.db, ack);
    var c := ack.commandId;
    NoteKeeps(n.(db := db), Acknowledged(c));
    if outcome.Terminal() { NoteKeeps(n.(db := db, log := n.log + [Acknowledged(c)]), Outcome(c)); }
    assert n.log + [Acknowledged(c)] + [] == n.log + [Acknowledged(c)];
  }

  lemma {:induction false} SplitRunKeeps(n: Node, steps: seq<SplitStep>)
    requires NodeInv(n)
    ensures NodeInv(SplitRunF(n, steps))
    decreases |steps|
  {
    hide NodeInv, StepF, StoreF;
    if steps != [] {
      SplitRunKeeps(n, steps[..|steps| - 1]);
      var m := SplitRunF(n, steps[..|steps| - 1]);
      match steps[|steps| - 1]
      case Whole(step) => StepKeeps(m, step);
      case ClearMarker(c) => ClearKeeps(m);
      case StoreAck(ack) => StoreKeeps(m, ack);
    }
  }

  /** The steps that can give a send away: lost or replaced connections, and markers cleared
      ahead of their ack. */
  function Giveaways(steps: seq<SplitStep>): nat {
    if steps == [] then 0 else Giveaways(steps[..|steps| - 1]) + if GivesAway(steps[|steps| - 1]) then 1 else 0
  }

  predicate GivesAway(step: SplitStep) {
    step.ClearMarker? || (step.Whole? && Breaks(step.step))
  }

  lemma StoreInterrupts(n: Node, ack: AckMessage)
    ensures Interruptions(StoreF(n, ack).log) == Interruptions(n.log)
  {
    hide AckF;
    var c := ack.commandId;
    LogAppend(n.log, Acknowledged(c), "");
    LogAppend(n.log + [Acknowledged(c)], Outcome(c), "");
    assert n.log + [Acknowledged(c)] + [] == n.log + [Acknowledged(c)];
  }

  lemma StepInterrupts(n: Node, step: SplitStep)
    ensures Interruptions(SplitStepF(n, step).log) <= Interruptions(n.log) + if GivesAway(step) then 1 else 0
  {
    hide StoreF, LoopF, ArriveF, PublishF, Apply, Interruptions;
    LogAppend(n.log, Interrupted, "");
    match step
    case Whole(step) => if !Breaks(step) { InterruptionsStep(n, step); }
    case ClearMarker(c) =>
    case StoreAck(ack) => StoreInterrupts(n, ack);
  }

  lemma {:induction false} FewInterruptions(n: Node, steps: seq<SplitStep>)
    ensures Interruptions(SplitRunF(n, steps).log) <= Interruptions(n.log) + Giveaways(steps)
    decreases |steps|
  {
    hide SplitStepF, Interruptions, GivesAway;
    if steps != [] {
      FewInterruptions(n, steps[..|steps| - 1]);
      StepInterrupts(SplitRunF(n, steps[..|steps| - 1]), steps[|steps| - 1]);
    }
  }

  /** With the two halves of each ack handler anywhere in the run, a command is sent at most
      33 times, once more for every lost or replaced connection, and once more for every
      marker that is cleared ahead of its ack. */
  lemma SplitSendBound(s: Redis, steps: seq<SplitStep>, c: CommandId)
    requires Quiet(s)
    ensures SendCount(SplitRunF(Connected(s), steps).log, c) <= 33 + Giveaways(steps)
  {
    hide Quiet, SplitRunF, Giveaways;
    ConnectedInv(s);
    SplitRunKeeps(Connected(s), steps);
    FewInterruptions(Connected(s), steps);
    WithinBound(SplitRunF(Connected(s), steps), c);
  }

  lemma WithinBound(n: Node, c: CommandId)
    requires NodeInv(n)
    ensures SendCount(n.log, c) <= 33 + Interruptions(n.log)
  {
    if 0 < SendCount(n.log, c) { LedgerBound(LedgerOf(n, c)); }
  }

  // ---------------------------------------------------------------- each one can cost a send

  /** After the 33rd send: an early clear and the next iteration of the loop send once more. */
  lemma SentOnceMore(log: seq<Event>)
    ensures var n := Sending(33).(log := log);
      SplitStepF(SplitStepF(n, ClearMarker("a")), Whole(Loop(Taken))) ==
        n.(log := log + [Interrupted] + [Sent("a", Offset(33))])
  {
    hide CleanupF, Offset, RetryDelayMs;
    var n := Sending(33).(log := log);
    RoomFor33(33);
    NoCleanup(n.db);
    assert PendingHead(n.db) == Some(Message(1, Some(COMMAND_A)));
    assert !BackedOff(n.db, "a");
    assert ReadF(n.db, Pending) == (n.db, Some(COMMAND_A));
  }

  function Wholes(steps: seq<Step>): (r: seq<SplitStep>)
    ensures |r| == |steps|
  {
    if steps == [] then [] else Wholes(steps[..|steps| - 1]) + [Whole(steps[|steps| - 1])]
  }

  lemma {:induction false} WholesRun(n: Node, steps: seq<Step>)
    requires Uninterrupted(steps)
    ensures SplitRunF(n, Wholes(steps)) == RunF(n, steps) && Giveaways(Wholes(steps)) == 0
    decreases |steps|
  {
    hide StepF;
    if steps != [] {
      var init, last := steps[..|steps| - 1], steps[|steps| - 1];
      assert init + [last] == steps && last in steps;
      WholesRun(n, init);
      RunAppend(n, init, [last]);
      OneStep(RunF(n, init), last);
      assert Wholes(steps)[..|init|] == Wholes(init);
    }
  }

  function EarlySteps(k: nat): seq<SplitStep> {
    if k == 0 then Wholes(SendSteps(33)) else EarlySteps(k - 1) + [ClearMarker("a"), Whole(Loop(Taken))]
  }

  lemma SplitTwoMore(n: Node, steps: seq<SplitStep>, x: SplitStep, y: SplitStep)
    ensures SplitRunF(n, steps + [x, y]) == SplitStepF(SplitStepF(SplitRunF(n, steps), x), y)
    ensures Giveaways(steps + [x, y]) == Giveaways(steps) + Giveaways([x]) + Giveaways([y])
  {
    hide SplitStepF;
    var all := steps + [x, y];
    assert all[..|all| - 1] == steps + [x] && (steps + [x])[..|steps|] == steps;
    assert [x][..0] == [] && [y][..0] == [];
  }

  /** The bound is attained for every number of early clears: so without any there are at
      most 33 sends, and each one can cost one more. */
  lemma {:induction false} EarlyClearsCost(k: nat)
    ensures Giveaways(EarlySteps(k)) == k
    ensures var n := SplitRunF(Connected(EMPTY), EarlySteps(k));
      SendCount(n.log, "a") == 33 + k && n == Sending(33).(log := n.log)
  {
    hide Sending, SplitStepF, SendSteps, Wholes, SplitRunF, Giveaways;
    if k == 0 {
      SendsReached(33);
      SendingLog(33);
      WholesRun(Connected(EMPTY), SendSteps(33));
      SameLog(Sending(33));
    } else {
      EarlyClearsCost(k - 1);
      OneMoreEarly(EarlySteps(k - 1));
    }
  }

  lemma OneMoreEarly(steps: seq<SplitStep>)
    requires var n := SplitRunF(Connected(EMPTY), steps); n == Sending(33).(log := n.log)
    ensures var more := steps + [ClearMarker("a"), Whole(Loop(Taken))];
      var n, m := SplitRunF(Connected(EMPTY), steps), SplitRunF(Connected(EMPTY), more);
      && Giveaways(more) == Giveaways(steps) + 1
      && SendCount(m.log, "a") == SendCount(n.log, "a") + 1 && m == Sending(33).(log := m.log)
  {
    hide Sending, SplitStepF, SplitRunF, SendCount;
    var log := SplitRunF(Connected(EMPTY), steps).log;
    SplitTwoMore(Connected(EMPTY), steps, ClearMarker("a"), Whole(Loop(Taken)));
    SentOnceMore(log);
    LogAppend(log, Interrupted, "a");
    LogAppend(log + [Interrupted], Sent("a", Offset(33)), "a");
    assert [ClearMarker("a")][..0] == [] && [Whole(Loop(Taken))][..0] == [];
  }

  lemma SameLog(n: Node)
    ensures n == n.(log := n.log)
  {
  }
}

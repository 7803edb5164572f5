/** How often a command can be sent: its backoff against its lifetime. */
module SendBudget {
  import opened Wrappers
  import opened RedisQueue
  import opened DeviceCommands
  import opened Gateway

  // ---------------------------------------------------------------- the log

  function SendCount(log: seq<Event>, c: CommandId): nat {
    if log == [] then 0
    else SendCount(log[..|log| - 1], c) + if log[|log| - 1].Sent? && log[|log| - 1].c == c then 1 else 0
  }

  function LastSend(log: seq<Event>, c: CommandId): nat {
    if log == [] then 0
    else if log[|log| - 1].Sent? && log[|log| - 1].c == c then log[|log| - 1].at
    else LastSend(log[..|log| - 1], c)
  }

  function Interruptions(log: seq<Event>): nat {
    if log == [] then 0
    else Interruptions(log[..|log| - 1]) + if log[|log| - 1].Interrupted? then 1 else 0
  }

  lemma LogAppend(log: seq<Event>, e: Event, c: CommandId)
    ensures SendCount(log + [e], c) == SendCount(log, c) + if e.Sent? && e.c == c then 1 else 0
    ensures LastSend(log + [e], c) == if e.Sent? && e.c == c then e.at else LastSend(log, c)
    ensures Interruptions(log + [e]) == Interruptions(log) + if e.Interrupted? then 1 else 0
  {
    assert (log + [e])[..|log + [e]| - 1] == log;
  }

  // ---------------------------------------------------------------- backoff arithmetic

  /** The least time from a command's enqueue to its n-th send. */
  function Offset(n: int): nat
    decreases if n < 0 then 0 else n
  {
    if n <= 1 then 0 else Offset(n - 1) + RetryDelayMs(n - 1)
  }

  lemma {:induction false} Pow2Monotone(m: nat, n: nat)
    requires m <= n
    ensures Pow2(m) <= Pow2(n)
    decreases n
  {
    if m < n { Pow2Monotone(m, n - 1); }
  }

  lemma DelayMonotone(m: nat, n: nat)
    requires m <= n
    ensures RetryDelayMs(m) <= RetryDelayMs(n)
  {
    Pow2Monotone(if m == 0 then 0 else m - 1, if n == 0 then 0 else n - 1);
  }

  lemma OffsetMonotone(n: int)
    ensures Offset(n - 1) <= Offset(n)
  {
  }

  lemma {:induction false} OffsetClosedForm(n: nat)
    requires 5 <= n
    ensures Offset(n) == 30_000 * (n - 4)
  {
    if n == 5 {
      assert RetryDelayMs(1) == 2000 && RetryDelayMs(2) == 4000;
      assert Pow2(2) == 4 && Pow2(3) == 8;
      assert RetryDelayMs(3) == 8000 && RetryDelayMs(4) == 16000;
      assert Offset(2) == 2000 && Offset(3) == 6000 && Offset(4) == 14000;
    } else {
      OffsetClosedForm(n - 1);
      Pow2Monotone(4, n - 2);
      assert Pow2(2) == 4 && Pow2(4) == 16;
    }
  }

  /** Within the lifetime of a command there is room for 33 sends and no more. */
  lemma RoomFor33(n: int)
    ensures Offset(n) < COMMAND_TTL_MS <==> n <= 33
  {
    if n >= 5 {
      OffsetClosedForm(n);
    } else {
      OffsetClosedForm(5);
      OffsetMonotone(5);
      OffsetMonotone(4);
      OffsetMonotone(3);
      OffsetMonotone(2);
    }
  }

  // ---------------------------------------------------------------- send budget

  /** All that the backoff argument needs to know of one command. An interruption clears
      the in-flight marker, and so gives one send away without a backoff. */
  datatype Ledger = Ledger(
    ts: nat, now: nat, live: bool, flying: bool, attempts: nat, availableAt: nat,
    sends: nat, last: nat, interruptions: nat)
  {
    function Counted(): int { sends - interruptions }

    predicate Within() {
      && ts + Offset(Counted()) <= now
      && (sends > 0 ==> ts + Offset(Counted()) <= last <= now && last < ts + COMMAND_TTL_MS)
      && (live ==>
            && now < ts + COMMAND_TTL_MS
            && if flying then Counted() <= attempts + 1
               else (&& Counted() <= attempts
                     && (ts + Offset(Counted() + 1) <= now || ts + Offset(Counted() + 1) <= availableAt)))
    }
  }

  lemma LedgerSchedule(l: Ledger)
    requires l.Within()
    ensures l.(flying := false, attempts := l.attempts + 1,
               availableAt := l.now + RetryDelayMs(l.attempts + 1)).Within()
  {
    var k := l.Counted();
    if l.live && k >= 1 { DelayMonotone(k, l.attempts + 1); }
  }

  lemma LedgerSend(l: Ledger)
    requires l.Within() && l.live && !l.flying && l.availableAt <= l.now
    ensures l.(flying := true, sends := l.sends + 1, last := l.now).Within()
  {
  }

  lemma LedgerInterrupt(l: Ledger)
    requires l.Within()
    ensures l.(flying := false, interruptions := l.interruptions + 1).Within()
  {
    OffsetMonotone(l.Counted());
  }

  lemma LedgerBound(l: Ledger)
    requires l.Within()
    ensures l.sends <= 33 + l.interruptions
  {
    RoomFor33(l.Counted());
  }

  predicate Flying(n: Node, c: CommandId) {
    n.inFlight.Some? && n.inFlight.value.commandId == c
  }

  ghost function LedgerOf(n: Node, c: CommandId): Ledger
    requires c in n.db.issued
  {
    Ledger(n.db.issued[c].command.ts, n.db.now, Live(n.db, c), Flying(n, c),
           AttemptsOf(n.db, c), if c in n.db.retries then n.db.retries[c].availableAt else 0,
           SendCount(n.log, c), LastSend(n.log, c), Interruptions(n.log))
  }

  ghost predicate NodeInv(n: Node) {
    && Quiet(n.db)
    && (forall c :: c in n.db.issued ==> LedgerOf(n, c).Within())
    && (forall c :: 0 < SendCount(n.log, c) ==> c in n.db.issued)
    && (n.inFlight.Some? ==> n.inFlight.value.commandId in n.db.issued)
  }

  /** Same ledger, or a dead one, after an operation that spares the command. */
  lemma SparedLedger(n: Node, t: Redis, except: set<CommandId>, c: CommandId)
    requires Spares(n.db, t, except) && c in n.db.issued && c !in except && LedgerOf(n, c).Within()
    ensures c in t.issued && LedgerOf(n.(db := t), c).Within()
    ensures Live(t, c) ==> LedgerOf(n.(db := t), c) == LedgerOf(n, c)
  {
    hide SendCount, LastSend, Interruptions, Offset;
    assert SparesOne(n.db, t, c, except);
  }

  lemma SparedNode(n: Node, t: Redis)
    requires NodeInv(n) && Quiet(t) && Spares(n.db, t, {}) && t.issued == n.db.issued
    ensures NodeInv(n.(db := t))
  {
    hide Quiet, Spares;
    forall c | c in t.issued ensures LedgerOf(n.(db := t), c).Within() {
      SparedLedger(n, t, {}, c);
    }
  }

  lemma ScheduledLedger(n: Node, c: CommandId)
    requires NodeInv(n) && c in n.db.issued
    ensures LedgerOf(n.(db := ScheduleRetryF(n.db, c), inFlight := if Flying(n, c) then None else n.inFlight),
                     c).Within()
  {
    hide Inv, Ordered, Offset, SendCount, LastSend, Interruptions, RetryDelayMs;
    var s, t := n.db, ScheduleRetryF(n.db, c);
    var l := LedgerOf(n, c);
    assert l.Within() && CommandOk(s, c);
    LedgerSchedule(l);
    hide NodeInv, Quiet;
  }

  /** A retry is scheduled for the command in flight, or for any other one. */
  lemma ScheduleKeeps(n: Node, c: CommandId)
    requires NodeInv(n) && c in n.db.issued
    ensures NodeInv(n.(db := ScheduleRetryF(n.db, c), inFlight := if Flying(n, c) then None else n.inFlight))
  {
    var t := ScheduleRetryF(n.db, c);
    var after := n.(db := t, inFlight := if Flying(n, c) then None else n.inFlight);
    ScheduleQuiet(n.db, c);
    ScheduledLedger(n, c);
    hide Quiet, Spares, ScheduleRetryF, SendCount, LastSend, Interruptions, Live, AttemptsOf, Offset;
    forall d | d in t.issued ensures LedgerOf(after, d).Within() {
      if d != c {
        SparedLedger(n, t, {c}, d);
        assert LedgerOf(after, d) == LedgerOf(n.(db := t), d);
      }
    }
  }

  lemma TimeoutKeeps(n: Node)
    requires NodeInv(n)
    ensures NodeInv(TimeoutF(n)) && TimeoutF(n).inFlight.None?
  {
    if n.inFlight.Some? { ScheduleKeeps(n, n.inFlight.value.commandId); }
  }

  lemma SentLedger(n: Node, c: CommandId, d: CommandId)
    requires NodeInv(n) && n.inFlight.None? && c in n.db.issued && d in n.db.issued
    requires Live(n.db, c) && (c in n.db.retries ==> n.db.retries[c].availableAt <= n.db.now)
    ensures LedgerOf(n.(inFlight := Some(Flight(c, n.db.now)), log := n.log + [Sent(c, n.db.now)]), d).Within()
  {
    hide Quiet, Offset;
    LogAppend(n.log, Sent(c, n.db.now), d);
    assert LedgerOf(n, d).Within();
    if d == c { LedgerSend(LedgerOf(n, c)); }
    hide NodeInv, SendCount, LastSend, Interruptions;
  }

  lemma SentKeeps(n: Node, c: CommandId)
    requires NodeInv(n) && n.inFlight.None? && c in n.db.issued && Live(n.db, c) && !BackedOff(n.db, c)
    ensures NodeInv(n.(inFlight := Some(Flight(c, n.db.now)), log := n.log + [Sent(c, n.db.now)]))
  {
    hide Inv, Ordered;
    assert c in n.db.retries ==> n.db.RetryVisible(c);
    hide Quiet, SendCount, LastSend, Interruptions, Offset;
    forall d ensures 0 < SendCount(n.log + [Sent(c, n.db.now)], d) ==> d in n.db.issued {
      LogAppend(n.log, Sent(c, n.db.now), d);
    }
    forall d | d in n.db.issued
      ensures LedgerOf(n.(inFlight := Some(Flight(c, n.db.now)), log := n.log + [Sent(c, n.db.now)]), d).Within()
    {
      SentLedger(n, c, d);
    }
  }

  lemma DispatchKeeps(n: Node, fate: Fate)
    requires NodeInv(n) && n.inFlight.None?
    ensures NodeInv(DispatchF(n, fate))
  {
    NextQuiet(n.db);
    var (db, next) := NextF(n.db);
    hide NextF;
    SparedNode(n, db);
    if next.Some? {
      var c := next.value.commandId;
      if fate.Taken? { SentKeeps(n.(db := db), c); } else { ScheduleKeeps(n.(db := db), c); }
    }
    hide NodeInv, Quiet, Spares, ScheduleRetryF;
    RunningIrrelevant(n.(db := db), false);
    if next.Some? && fate.Refused? {
      RunningIrrelevant(n.(db := ScheduleRetryF(db, next.value.commandId)), false);
    }
  }

  lemma RunningIrrelevant(n: Node, running: bool)
    requires NodeInv(n)
    ensures NodeInv(n.(running := running))
  {
    assert forall c :: c in n.db.issued ==> LedgerOf(n.(running := running), c) == LedgerOf(n, c);
  }

  lemma InterruptKeeps(n: Node, running: bool)
    requires NodeInv(n)
    ensures NodeInv(n.(running := running, inFlight := None, log := n.log + [Interrupted]))
  {
    var after := n.(running := running, inFlight := None, log := n.log + [Interrupted]);
    hide Quiet;
    forall d | d in n.db.issued ensures LedgerOf(after, d).Within() {
      LogAppend(n.log, Interrupted, d);
      LedgerInterrupt(LedgerOf(n, d));
    }
    forall d | 0 < SendCount(after.log, d) ensures d in n.db.issued {
      LogAppend(n.log, Interrupted, d);
    }
  }

  /** Entries of the log that are neither sends nor interruptions change no ledger. */
  lemma NoteKeeps(n: Node, e: Event)
    requires NodeInv(n) && !e.Sent? && !e.Interrupted?
    ensures NodeInv(n.(log := n.log + [e]))
  {
    hide Quiet, SendCount, LastSend, Interruptions, Live, AttemptsOf;
    forall d ensures SendCount(n.log + [e], d) == SendCount(n.log, d)
      && (d in n.db.issued ==> LedgerOf(n.(log := n.log + [e]), d) == LedgerOf(n, d))
    {
      LogAppend(n.log, e, d);
    }
  }

  lemma AckIssued(s: Redis, ack: AckMessage)
    ensures AckF(s, ack).0.issued == s.issued && AckF(s, ack).0.now == s.now
  {
    hide DeleteF, Apply, RetryDelayMs, AttemptsOf;
    var c := ack.commandId;
    AckFields(s, c, ack.ok);
    if s.EntryVisible(c) { DeleteFields(Apply(s, SetAck(c, ack.ok)), s.entries[c].streamId, c); }
    RetryFields(s, c);
  }

  lemma RetryFields(s: Redis, c: CommandId)
    ensures ScheduleRetryF(s, c).issued == s.issued && ScheduleRetryF(s, c).now == s.now
  {
    hide RetryDelayMs, AttemptsOf;
  }

  lemma DeadLedger(n: Node, m: Node, c: CommandId)
    requires c in n.db.issued && LedgerOf(n, c).Within()
    requires m.db.now == n.db.now && m.db.issued == n.db.issued && m.log == n.log && !Live(m.db, c)
    ensures LedgerOf(m, c).Within()
  {
  }

  lemma AckKeeps(n: Node, ack: AckMessage)
    requires NodeInv(n)
    ensures NodeInv(n.(db := AckF(n.db, ack).0, inFlight := if Flying(n, ack.commandId) then None else n.inFlight))
  {
    hide Quiet, AckF, Spares, ScheduleRetryF;
    var (t, outcome) := AckF(n.db, ack);
    var c := ack.commandId;
    var after := n.(db := t, inFlight := if Flying(n, c) then None else n.inFlight);
    AckQuiet(n.db, ack);
    AckIssued(n.db, ack);
    if outcome.Retry? {
      ScheduleKeeps(n, c);
    } else {
      forall d | d in t.issued ensures LedgerOf(after, d).Within() {
        if d != c {
          SparedLedger(n, t, {c}, d);
          assert LedgerOf(after, d) == LedgerOf(n.(db := t), d);
        } else {
          DeadLedger(n, after, c);
        }
      }
    }
  }

  lemma ArriveKeeps(n: Node, ack: AckMessage)
    requires NodeInv(n)
    ensures NodeInv(ArriveF(n, ack))
  {
    hide NodeInv, AckF;
    AckKeeps(n, ack);
    var (db, outcome) := AckF(n.db, ack);
    var c := ack.commandId;
    var m := n.(db := db, inFlight := if Flying(n, c) then None else n.inFlight);
    NoteKeeps(m, Acknowledged(c));
    if outcome.Terminal() { NoteKeeps(m.(log := m.log + [Acknowledged(c)]), Outcome(c)); }
    assert n.log + [Acknowledged(c)] + [] == n.log + [Acknowledged(c)];
  }

  lemma PublishKeeps(n: Node, c: CommandId, commandType: string, payload: string, gap: nat)
    requires NodeInv(n)
    ensures NodeInv(n.(db := PublishF(n.db, c, commandType, payload, gap)))
  {
    hide Quiet, Spares, PublishF, SendCount, LastSend, Interruptions, Offset;
    var t := PublishF(n.db, c, commandType, payload, gap);
    PublishQuiet(n.db, c, commandType, payload, gap);
    PublishGrows(n.db, c, commandType, payload, gap);
    forall d | d in t.issued ensures LedgerOf(n.(db := t), d).Within() {
      if d in n.db.issued {
        SparedLedger(n, t, {}, d);
      } else {
        NoSends(n.log, d);
        assert AttemptsOf(t, d) == 0;
      }
    }
  }

  lemma PublishGrows(s: Redis, c: CommandId, commandType: string, payload: string, gap: nat)
    requires Quiet(s)
    ensures forall d :: d in s.issued ==> d in PublishF(s, c, commandType, payload, gap).issued
    ensures PublishF(s, c, commandType, payload, gap).now == s.now
  {
    hide Quiet, PublishF;
    PublishQuiet(s, c, commandType, payload, gap);
    assert forall d :: d in s.issued ==> SparesOne(s, PublishF(s, c, commandType, payload, gap), d, {});
  }

  lemma NoSends(log: seq<Event>, c: CommandId)
    requires SendCount(log, c) == 0
    ensures Offset(SendCount(log, c) - Interruptions(log)) == 0
    ensures Offset(SendCount(log, c) - Interruptions(log) + 1) == 0
  {
  }

  lemma ElapseLedger(n: Node, ms: nat, c: CommandId)
    requires NodeInv(n) && c in n.db.issued
    ensures LedgerOf(n.(db := Apply(n.db, Tick(ms))), c).Within()
  {
    hide Inv, Ordered, Offset, SendCount, LastSend, Interruptions;
    assert LedgerOf(n, c).Within() && CommandOk(n.db, c);
  }

  lemma StaleReadKeeps(n: Node)
    requires NodeInv(n)
    ensures NodeInv(n.(db := ReadF(n.db, New).0))
  {
    hide Quiet, ReadF, LedgerOf;
    ReadQuiet(n.db, New);
    SparedNode(n, ReadF(n.db, New).0);
  }

  lemma StepKeeps(n: Node, step: Step)
    requires NodeInv(n)
    ensures NodeInv(StepF(n, step))
  {
    match step
    case Elapse(ms) =>
      TickQuiet(n.db, ms);
      forall c | c in n.db.issued ensures LedgerOf(n.(db := Apply(n.db, Tick(ms))), c).Within() {
        ElapseLedger(n, ms, c);
      }
    case Publish(c, commandType, payload, gap) =>
      hide NodeInv;
      PublishKeeps(n, c, commandType, payload, gap);
    case Loop(fate) =>
      hide NodeInv;
      TimeoutKeeps(n);
      DispatchKeeps(TimeoutF(n), fate);
    case Arrive(ack) =>
      hide NodeInv;
      ArriveKeeps(n, ack);
    case Restart =>
      hide NodeInv;
      InterruptKeeps(n, true);
    case Close =>
      hide NodeInv;
      InterruptKeeps(n, false);
    case LateClose =>
      hide NodeInv;
      InterruptKeeps(n, n.running);
    case StaleRead =>
      StaleReadKeeps(n);
  }

  /** A gateway loop that has just started on a queue with any past. */
  function Connected(s: Redis): Node {
    Node(s, true, None, [])
  }

  lemma ConnectedInv(s: Redis)
    requires Quiet(s)
    ensures NodeInv(Connected(s))
  {
    forall c | c in s.issued ensures LedgerOf(Connected(s), c).Within() {
      assert CommandOk(s, c);
    }
  }

  lemma {:induction false} RunKeeps(n: Node, steps: seq<Step>)
    requires NodeInv(n)
    ensures NodeInv(RunF(n, steps))
    decreases |steps|
  {
    if steps != [] {
      StepKeeps(n, steps[0]);
      RunKeeps(StepF(n, steps[0]), steps[1..]);
    }
  }

  /** Every queue that whole operations can lead to is quiet. */
  lemma ReachableIsQuiet(steps: seq<Step>)
    ensures Quiet(RunF(Connected(EMPTY), steps).db)
  {
    ConnectedInv(EMPTY);
    RunKeeps(Connected(EMPTY), steps);
  }

  /** A connection opens or closes, whether in turn or late. */
  predicate Breaks(step: Step) {
    step.Restart? || step.Close? || step.LateClose?
  }

  function BreakCount(steps: seq<Step>): nat {
    if steps == [] then 0 else (if Breaks(steps[0]) then 1 else 0) + BreakCount(steps[1..])
  }

  ghost predicate Uninterrupted(steps: seq<Step>) {
    forall step :: step in steps ==> !Breaks(step)
  }

  lemma InterruptionsStep(n: Node, step: Step)
    requires !Breaks(step)
    ensures Interruptions(StepF(n, step).log) == Interruptions(n.log)
  {
    hide NextF, AckF, PublishF, ScheduleRetryF;
    match step
    case Loop(fate) =>
      forall c, at ensures Interruptions(n.log + [Sent(c, at)]) == Interruptions(n.log) {
        LogAppend(n.log, Sent(c, at), "");
      }
    case Arrive(ack) =>
      var c := ack.commandId;
      LogAppend(n.log, Acknowledged(c), "");
      LogAppend(n.log + [Acknowledged(c)], Outcome(c), "");
      assert n.log + [Acknowledged(c)] + [] == n.log + [Acknowledged(c)];
    case _ =>
  }

  lemma {:induction false} InterruptionsCount(n: Node, steps: seq<Step>)
    ensures Interruptions(RunF(n, steps).log) == Interruptions(n.log) + BreakCount(steps)
    decreases |steps|
  {
    hide StepF, Interruptions, Breaks;
    if steps != [] {
      if Breaks(steps[0]) { BreakIsLogged(n, steps[0]); } else { InterruptionsStep(n, steps[0]); }
      InterruptionsCount(StepF(n, steps[0]), steps[1..]);
    }
  }

  lemma BreakIsLogged(n: Node, step: Step)
    requires Breaks(step)
    ensures Interruptions(StepF(n, step).log) == Interruptions(n.log) + 1
  {
    LogAppend(n.log, Interrupted, "");
  }

  /** A command is sent at most 33 times, and once more for every time a connection opens or
      closes, an old one that closes late included. */
  lemma SendBound(s: Redis, steps: seq<Step>, c: CommandId)
    requires Quiet(s)
    ensures SendCount(RunF(Connected(s), steps).log, c) <= 33 + BreakCount(steps)
  {
    ConnectedInv(s);
    RunKeeps(Connected(s), steps);
    InterruptionsCount(Connected(s), steps);
    var n := RunF(Connected(s), steps);
    if 0 < SendCount(n.log, c) { LedgerBound(LedgerOf(n, c)); }
  }

  lemma {:induction false} NoBreaks(steps: seq<Step>)
    requires Uninterrupted(steps)
    ensures BreakCount(steps) == 0
  {
    if steps != [] {
      assert steps[0] in steps;
      NoBreaks(steps[1..]);
    }
  }

  lemma UninterruptedSendBound(s: Redis, steps: seq<Step>, c: CommandId)
    requires Quiet(s) && Uninterrupted(steps)
    ensures SendCount(RunF(Connected(s), steps).log, c) <= 33
  {
    hide RunF;
    SendBound(s, steps, c);
    NoBreaks(steps);
  }
}

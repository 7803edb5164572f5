/** Runs of the gateway that show where its bounds and conditions are needed. */
module SendsAttained {
  import opened Wrappers
  import opened RedisQueue
  import opened DeviceCommands
  import opened Gateway
  import opened SendBudget
  import opened GatewayRuns

  /** A cleanup of a stream that begins with a live message changes nothing. */
  lemma NoCleanup(s: Redis)
    requires s.stream == [] || !Removable(s.stream[0], s.now)
    ensures CleanupF(s) == s
  {
  }

  // ---------------------------------------------------------------- 33 sends are possible

  const COMMAND_A: Command := Command("a", "run.log", "{}", 0, COMMAND_TTL_MS)

  const BUSY: AckMessage := AckMessage("a", false, DeviceBusy, None)

  function SendLog(k: nat): seq<Event> {
    if k == 0 then [] else if k == 1 then [Sent("a", 0)] else SendLog(k - 1) + [Acknowledged("a"), Sent("a", Offset(k))]
  }

  /** The node just after the k-th send of its only command. */
  function Sending(k: nat): Node
    requires k >= 1
  {
    Node(Redis(Offset(k), [Message(1, Some(COMMAND_A))], 1, 1, [1],
               map["a" := EntryRecord(1, COMMAND_A, COMMAND_TTL_MS)], map[],
               if k == 1 then map[] else map["a" := RetryRecord(k - 1, Offset(k), Offset(k - 1) + COMMAND_TTL_MS)],
               map["a" := Issue(1, COMMAND_A, true)]),
         true, Some(Flight("a", Offset(k))), SendLog(k))
  }

  lemma FirstSendOfOne()
    ensures RunF(Connected(EMPTY), [Publish("a", "run.log", "{}", 0), Loop(Taken)]) == Sending(1)
  {
    hide CleanupF;
    var s1 := Apply(Apply(EMPTY, XAdd(1, COMMAND_A)), SetEntry("a"));
    NoCleanup(s1);
    var n := StepF(Connected(EMPTY), Publish("a", "run.log", "{}", 0));
    assert n == Node(s1, true, None, []);
    assert s1.stream == [Message(1, Some(COMMAND_A))];
    assert ReadF(s1, Pending) == (s1, None);
    NoCleanup(s1);
    assert FirstAfter(s1.stream, 0) == Some(Message(1, Some(COMMAND_A)));
    var t := Apply(s1, XReadNew);
    assert t == s1.(delivered := 1, pending := [1]);
    assert ReadF(s1, New) == (t, Some(COMMAND_A));
    assert StepF(n, Loop(Taken)) == Sending(1);
    assert [Publish("a", "run.log", "{}", 0), Loop(Taken)][1..] == [Loop(Taken)];
    assert [Loop(Taken)][1..] == [];
  }

  function AgainSteps(k: nat): seq<Step> {
    [Arrive(BUSY), Elapse(RetryDelayMs(k)), Loop(Taken)]
  }

  /** The retry record after the k-th nack. */
  function Nacked(k: nat): map<CommandId, RetryRecord>
    requires k >= 1
  {
    map["a" := RetryRecord(k, Offset(k + 1), Offset(k) + COMMAND_TTL_MS)]
  }

  /** The device is busy each time, and the loop comes round as soon as the backoff is over. */
  lemma NackedAt(k: nat)
    requires 1 <= k < 33
    ensures StepF(Sending(k), Arrive(BUSY)) ==
            Sending(k).(inFlight := None, log := SendLog(k) + [Acknowledged("a")],
                        db := Sending(k).db.(retries := Nacked(k)))
  {
    NackOf(k);
    hide AckF, Sending;
    assert SendLog(k) + [Acknowledged("a")] + [] == SendLog(k) + [Acknowledged("a")];
    SendingIs(k);
  }

  lemma SendingIs(k: nat)
    requires k >= 1
    ensures Sending(k).log == SendLog(k) && Sending(k).inFlight == Some(Flight("a", Offset(k)))
  {
  }

  lemma NackOf(k: nat)
    requires 1 <= k < 33
    ensures var s := Sending(k).db; AckF(s, BUSY).0 == s.(retries := Nacked(k)) && !AckF(s, BUSY).1.Terminal()
  {
    hide RetryDelayMs;
    RoomFor33(k);
    OffsetStep(k);
    var s := Sending(k).db;
    assert AttemptsOf(s, "a") == k - 1 by { if k > 1 { OffsetStep(k - 1); } }
    assert ScheduleRetryF(s, "a") == s.(retries := Nacked(k));
    assert s.EntryVisible("a") && !s.AckVisible("a") && BUSY.WantsRetry();
    hide ScheduleRetryF, Nacked, Offset, Sending;
  }

  lemma OffsetStep(k: nat)
    requires k >= 1
    ensures Offset(k + 1) == Offset(k) + RetryDelayMs(k) <= Offset(k) + RETRY_MAX_DELAY_MS
  {
  }

  lemma SentAgain(k: nat, n: Node)
    requires 1 <= k < 33
    requires n == Sending(k).(inFlight := None, log := SendLog(k) + [Acknowledged("a")],
                              db := Sending(k).db.(now := Offset(k + 1),
                                                   retries := Nacked(k)))
    ensures StepF(n, Loop(Taken)) == Sending(k + 1)
  {
    hide CleanupF, Offset, RetryDelayMs;
    RoomFor33(k + 1);
    NoCleanup(n.db);
    assert PendingHead(n.db) == Some(Message(1, Some(COMMAND_A)));
    assert !BackedOff(n.db, "a");
    assert ReadF(n.db, Pending) == (n.db, Some(COMMAND_A));
    assert SendLog(k + 1) == SendLog(k) + [Acknowledged("a")] + [Sent("a", Offset(k + 1))];
  }

  lemma SendAgain(k: nat)
    requires 1 <= k < 33
    ensures RunF(Sending(k), AgainSteps(k)) == Sending(k + 1)
  {
    hide StepF, Offset, RetryDelayMs, Sending;
    NackedAt(k);
    var steps := AgainSteps(k);
    var n1 := StepF(Sending(k), steps[0]);
    var n2 := StepF(n1, steps[1]);
    TickStep(n1, RetryDelayMs(k));
    OffsetStep(k);
    SendingNow(k);
    SentAgain(k, n2);
    ThreeSteps(Sending(k), steps[0], steps[1], steps[2]);
  }

  lemma SendingNow(k: nat)
    requires k >= 1
    ensures Sending(k).db.now == Offset(k)
  {
  }

  lemma TickStep(n: Node, ms: nat)
    ensures StepF(n, Elapse(ms)) == n.(db := n.db.(now := n.db.now + ms))
  {
  }

  lemma ThreeSteps(n: Node, x: Step, y: Step, z: Step)
    ensures RunF(n, [x, y, z]) == StepF(StepF(StepF(n, x), y), z)
  {
    hide StepF;
    assert [x, y, z][1..] == [y, z] && [y, z][1..] == [z] && [z][1..] == [];
    assert RunF(StepF(n, x), [y, z]) == RunF(StepF(StepF(n, x), y), [z]);
    assert RunF(StepF(StepF(n, x), y), [z]) == RunF(StepF(StepF(StepF(n, x), y), z), []);
  }

  function SendSteps(k: nat): seq<Step>
    requires k >= 1
  {
    if k == 1 then [Publish("a", "run.log", "{}", 0), Loop(Taken)] else SendSteps(k - 1) + AgainSteps(k - 1)
  }

  lemma {:induction false} SendsReached(k: nat)
    requires 1 <= k <= 33
    ensures RunF(Connected(EMPTY), SendSteps(k)) == Sending(k) && SendCount(SendLog(k), "a") == k
    ensures Uninterrupted(SendSteps(k))
    decreases k
  {
    hide Sending, StepF, Offset;
    if k == 1 {
      FirstSendOfOne();
    } else {
      SendsReached(k - 1);
      RunAppend(Connected(EMPTY), SendSteps(k - 1), AgainSteps(k - 1));
      SendAgain(k - 1);
      LogAppend(SendLog(k - 1), Acknowledged("a"), "a");
      LogAppend(SendLog(k - 1) + [Acknowledged("a")], Sent("a", Offset(k)), "a");
      assert SendLog(k) == SendLog(k - 1) + [Acknowledged("a")] + [Sent("a", Offset(k))];
    }
  }

  lemma SendingLog(k: nat)
    requires k >= 1
    ensures Sending(k).log == SendLog(k)
  {
  }

  /** The bound of 33 sends is attained. */
  lemma SendBoundIsTight() returns (steps: seq<Step>)
    ensures Uninterrupted(steps) && SendCount(RunF(Connected(EMPTY), steps).log, "a") == 33
  {
    hide Sending, SendSteps, SendLog, RunF;
    steps := SendSteps(33);
    SendsReached(33);
    SendingLog(33);
  }

  // ---------------------------------------------------------------- a replaced connection can cost two more

  const REPLACED: seq<Step> := [Restart, Loop(Taken), LateClose, Loop(Taken)]

  /** A connection is replaced k times, and the old one closes after the new one has sent. */
  function ReplacedSteps(k: nat): seq<Step> {
    if k == 0 then SendSteps(33) else ReplacedSteps(k - 1) + REPLACED
  }

  /** After the 33rd send: both a new connection and the end of an old one let the next
      iteration send once more. */
  lemma SentAfterBreak(log: seq<Event>, step: Step)
    requires step.Restart? || step.LateClose?
    ensures StepF(StepF(Sending(33).(log := log), step), Loop(Taken)) ==
            Sending(33).(log := log + [Interrupted] + [Sent("a", Offset(33))])
  {
    hide CleanupF, Offset, RetryDelayMs;
    var n := Sending(33).(log := log);
    RoomFor33(33);
    NoCleanup(n.db);
    assert PendingHead(n.db) == Some(Message(1, Some(COMMAND_A)));
    assert !BackedOff(n.db, "a");
    assert ReadF(n.db, Pending) == (n.db, Some(COMMAND_A));
  }

  lemma BreakAndSend(log: seq<Event>)
    ensures SendCount(log + [Interrupted] + [Sent("a", Offset(33))], "a") == SendCount(log, "a") + 1
  {
    hide Offset;
    LogAppend(log, Interrupted, "a");
    LogAppend(log + [Interrupted], Sent("a", Offset(33)), "a");
  }

  lemma {:induction false} BreaksAppend(xs: seq<Step>, ys: seq<Step>)
    ensures BreakCount(xs + ys) == BreakCount(xs) + BreakCount(ys)
  {
    if xs == [] {
      assert xs + ys == ys;
    } else {
      assert (xs + ys)[1..] == xs[1..] + ys;
      BreaksAppend(xs[1..], ys);
    }
  }

  lemma ReplacedOnce(n: Node)
    requires n == Sending(33).(log := n.log)
    ensures var m := RunF(n, REPLACED);
      m == Sending(33).(log := m.log) && SendCount(m.log, "a") == SendCount(n.log, "a") + 2
    ensures BreakCount(REPLACED) == 2
  {
    hide Sending, StepF, Offset, SendCount, RunF;
    var log1 := n.log + [Interrupted] + [Sent("a", Offset(33))];
    SentAfterBreak(n.log, Restart);
    BreakAndSend(n.log);
    SentAfterBreak(log1, LateClose);
    BreakAndSend(log1);
    assert REPLACED == [Restart, Loop(Taken)] + [LateClose, Loop(Taken)];
    RunAppend(n, [Restart, Loop(Taken)], [LateClose, Loop(Taken)]);
    TwoSteps(n, Restart, Loop(Taken));
    TwoSteps(Sending(33).(log := log1), LateClose, Loop(Taken));
    assert REPLACED[1..] == [Loop(Taken), LateClose, Loop(Taken)] && REPLACED[1..][1..] == [LateClose, Loop(Taken)];
    assert REPLACED[1..][1..][1..] == [Loop(Taken)] && [Loop(Taken)][1..] == [];
    assert BreakCount(REPLACED[1..][1..]) == 1;
  }

  /** The bound is attained for any number of replaced connections: each counts twice, when
      the new one opens and when the old one closes late. */
  lemma {:induction false} ReplacementsCost(k: nat)
    ensures BreakCount(ReplacedSteps(k)) == 2 * k
    ensures var n := RunF(Connected(EMPTY), ReplacedSteps(k));
      SendCount(n.log, "a") == 33 + 2 * k && n == Sending(33).(log := n.log)
  {
    hide Sending, StepF, SendSteps, RunF, SendCount;
    if k == 0 {
      SendsReached(33);
      SendingLog(33);
      NoBreaks(SendSteps(33));
      var n := Sending(33);
      assert n == n.(log := n.log);
    } else {
      ReplacementsCost(k - 1);
      RunAppend(Connected(EMPTY), ReplacedSteps(k - 1), REPLACED);
      BreaksAppend(ReplacedSteps(k - 1), REPLACED);
      ReplacedOnce(RunF(Connected(EMPTY), ReplacedSteps(k - 1)));
    }
  }

  // ---------------------------------------------------------------- an overtaken first send

  const COMMAND_B: Command := Command("b", "run.log", "{}", 0, COMMAND_TTL_MS)

  const BOTH: seq<Message> := [Message(1, Some(COMMAND_A)), Message(2, Some(COMMAND_B))]

  /** Two commands are queued and the first is lost to a closed socket. */
  const QUEUED: Redis :=
    Redis(0, BOTH, 2, 0, [],
          map["a" := EntryRecord(1, COMMAND_A, COMMAND_TTL_MS), "b" := EntryRecord(2, COMMAND_B, COMMAND_TTL_MS)],
          map[], map[],
          map["a" := Issue(1, COMMAND_A, true), "b" := Issue(2, COMMAND_B, true)])

  const LOST: Redis :=
    QUEUED.(delivered := 1, pending := [1], retries := map["a" := RetryRecord(1, 2000, COMMAND_TTL_MS)])

  lemma QueueBoth()
    ensures StepF(StepF(Connected(EMPTY), Publish("a", "run.log", "{}", 0)), Publish("b", "run.log", "{}", 0)) ==
            Connected(QUEUED)
  {
    hide CleanupF;
    var s1 := Apply(Apply(EMPTY, XAdd(1, COMMAND_A)), SetEntry("a"));
    NoCleanup(s1);
    var s2 := Apply(Apply(s1, XAdd(2, COMMAND_B)), SetEntry("b"));
    assert s2.stream == BOTH;
    NoCleanup(s2);
    assert s2 == QUEUED;
  }

  lemma LoseFirst()
    ensures StepF(StepF(Connected(QUEUED), Loop(Refused)), Restart) == Node(LOST, true, None, [Interrupted])
  {
    hide CleanupF;
    NoCleanup(QUEUED);
    assert ReadF(QUEUED, Pending) == (QUEUED, None);
    assert FirstAfter(BOTH, 0) == Some(Message(1, Some(COMMAND_A)));
    var t := Apply(QUEUED, XReadNew);
    assert ReadF(QUEUED, New) == (t, Some(COMMAND_A));
    assert ScheduleRetryF(t, "a") == LOST;
    assert [] + [Interrupted] == [Interrupted];
  }

  lemma SendSecond()
    ensures StepF(Node(LOST, true, None, [Interrupted]), Loop(Taken)) ==
            Node(LOST.(delivered := 2, pending := [1, 2]), true, Some(Flight("b", 0)), [Interrupted, Sent("b", 0)])
  {
    hide CleanupF;
    NoCleanup(LOST);
    assert PendingHead(LOST) == Some(Message(1, Some(COMMAND_A)));
    assert ReadF(LOST, Pending) == (LOST, None);
    assert BOTH[1..] == [Message(2, Some(COMMAND_B))] && FirstAfter(BOTH[1..], 1) == Some(Message(2, Some(COMMAND_B)));
    assert FirstAfter(BOTH, 1) == Some(Message(2, Some(COMMAND_B)));
    var t := Apply(LOST, XReadNew);
    assert t == LOST.(delivered := 2, pending := [1, 2]);
    assert ReadF(LOST, New) == (t, Some(COMMAND_B));
    assert [Interrupted] + [Sent("b", 0)] == [Interrupted, Sent("b", 0)];
  }

  lemma SendFirst(n: Node)
    requires n == Node(LOST.(delivered := 2, pending := [1, 2], now := 15_000), true, Some(Flight("b", 0)),
                       [Interrupted, Sent("b", 0)])
    ensures StepF(n, Loop(Taken)).log == [Interrupted, Sent("b", 0), Sent("a", 15_000)]
    ensures StepF(n, Loop(Taken)).db.issued == QUEUED.issued
  {
    hide CleanupF;
    var s := ScheduleRetryF(n.db, "b");
    assert s == n.db.(retries := LOST.retries["b" := RetryRecord(1, 17_000, 15_000 + COMMAND_TTL_MS)]);
    NoCleanup(s);
    assert PendingHead(s) == Some(Message(1, Some(COMMAND_A)));
    assert ReadF(s, Pending) == (s, Some(COMMAND_A));
    assert [Interrupted, Sent("b", 0)] + [Sent("a", 15_000)] == [Interrupted, Sent("b", 0), Sent("a", 15_000)];
  }

  /** With a socket that fails at the moment of a send, a command published later can be
      sent first. */
  lemma FirstSendOvertaken() returns (steps: seq<Step>)
    ensures var n := RunF(Connected(EMPTY), steps); !FirstSendsOrdered(n.log, n.db.issued)
  {
    hide StepF;
    var start := [Publish("a", "run.log", "{}", 0), Publish("b", "run.log", "{}", 0)];
    var n1 := Node(LOST, true, None, [Interrupted]);
    steps := start + ([Loop(Refused), Restart, Loop(Taken)] + [Elapse(15_000), Loop(Taken)]);
    QueueBoth();
    LoseFirst();
    SendSecond();
    var n2 := StepF(n1, Loop(Taken));
    TickStep(n2, 15_000);
    SendFirst(StepF(n2, Elapse(15_000)));
    RunAppend(Connected(EMPTY), start, [Loop(Refused), Restart, Loop(Taken)] + [Elapse(15_000), Loop(Taken)]);
    RunAppend(Connected(QUEUED), [Loop(Refused), Restart, Loop(Taken)], [Elapse(15_000), Loop(Taken)]);
    TwoSteps(Connected(EMPTY), start[0], start[1]);
    ThreeSteps(Connected(QUEUED), Loop(Refused), Restart, Loop(Taken));
    TwoSteps(n2, Elapse(15_000), Loop(Taken));
    BothFirst();
  }

  lemma TwoSteps(n: Node, x: Step, y: Step)
    ensures RunF(n, [x, y]) == StepF(StepF(n, x), y)
  {
    hide StepF;
    assert [x, y][1..] == [y] && [y][1..] == [];
    assert RunF(StepF(n, x), [y]) == RunF(StepF(StepF(n, x), y), []);
  }

  lemma BothFirst()
    ensures !FirstSendsOrdered([Interrupted, Sent("b", 0), Sent("a", 15_000)], QUEUED.issued)
  {
    var log := [Interrupted, Sent("b", 0), Sent("a", 15_000)];
    LogAppend([], Interrupted, "b");
    LogAppend([Interrupted], Sent("b", 0), "a");
    LogAppend([], Interrupted, "a");
    assert [] + [Interrupted] == log[..1] && [Interrupted] + [Sent("b", 0)] == log[..2];
    assert FirstSend(log, 1) && FirstSend(log, 2);
  }
}

/** Statements about every run of the gateway of one device, over any number of
    connections: what is outstanding, what is handed out, and in which order. */
module GatewayRuns {
  import opened Wrappers
  import opened RedisQueue
  import opened DeviceCommands
  import opened QueueProperties
  import opened Gateway
  import opened SendBudget

  // ---------------------------------------------------------------- delivery discipline

  ghost predicate Released(log: seq<Event>, i: int, j: int)
    requires 0 <= i < j <= |log| && log[i].Sent?
  {
    exists k :: i < k < j && (log[k] == Acknowledged(log[i].c) || log[k] == Interrupted)
  }

  /** Between two sends the first one was answered, the connection was replaced, or at
      least the ack timeout went by. */
  ghost predicate Disciplined(log: seq<Event>) {
    forall i, j :: 0 <= i < j < |log| && log[i].Sent? && log[j].Sent? ==>
      log[i].at + 15_000 <= log[j].at || Released(log, i, j)
  }

  ghost predicate Watched(n: Node) {
    && Disciplined(n.log)
    && forall i :: 0 <= i < |n.log| && n.log[i].Sent? ==>
         || n.log[i].at + 15_000 <= n.db.now
         || Released(n.log, i, |n.log|)
         || n.inFlight == Some(Flight(n.log[i].c, n.log[i].at))
  }

  lemma WatchedAppend(n: Node, e: Event, m: Node)
    requires Watched(n) && m.log == n.log + [e] && m.db.now == n.db.now
    requires match e
      case Sent(c, at) => n.inFlight.None? && at == n.db.now && m.inFlight == Some(Flight(c, at))
      case Acknowledged(c) => m.inFlight == if Flying(n, c) then None else n.inFlight
      case Outcome(_) => m.inFlight == n.inFlight
      case Interrupted => true
    ensures Watched(m)
  {
    forall i, j | 0 <= i < j <= |n.log| && n.log[i].Sent? && Released(n.log, i, j) ensures Released(m.log, i, j) {
      var k :| i < k < j && (n.log[k] == Acknowledged(n.log[i].c) || n.log[k] == Interrupted);
      assert m.log[k] == n.log[k];
    }
    forall i | 0 <= i < |n.log| && n.log[i].Sent? && Released(n.log, i, |n.log|) ensures Released(m.log, i, |m.log|) {
      var k :| i < k < |n.log| && (n.log[k] == Acknowledged(n.log[i].c) || n.log[k] == Interrupted);
      assert m.log[k] == n.log[k];
    }
    assert m.log[|n.log|] == e;
  }

  lemma WatchedStep(n: Node, step: Step)
    requires NodeInv(n) && Watched(n)
    ensures Watched(StepF(n, step))
  {
    hide Quiet, NextF, ReadF, AckF, PublishF, ScheduleRetryF, Spares, Disciplined, Released;
    match step
    case Loop(fate) =>
      if n.running && !Waiting(n) { WatchedLoop(n, fate); }
    case Arrive(ack) =>
      var c := ack.commandId;
      var t := AckF(n.db, ack).0;
      AckIssued(n.db, ack);
      var m := Node(t, n.running, if Flying(n, c) then None else n.inFlight, n.log + [Acknowledged(c)]);
      WatchedAppend(n, Acknowledged(c), m);
      WatchedAppend(m, Outcome(c), m.(log := m.log + [Outcome(c)]));
      assert n.log + [Acknowledged(c)] + [] == n.log + [Acknowledged(c)];
    case Publish(c, commandType, payload, gap) =>
      PublishGrows(n.db, c, commandType, payload, gap);
    case Restart =>
      WatchedAppend(n, Interrupted, StepF(n, step));
    case Close =>
      WatchedAppend(n, Interrupted, StepF(n, step));
    case LateClose =>
      WatchedAppend(n, Interrupted, StepF(n, step));
    case StaleRead =>
      QuietDb(n);
      ReadQuiet(n.db, New);
      SparesNow(n.db, ReadF(n.db, New).0);
    case Elapse(ms) =>
  }

  lemma WatchedLoop(n: Node, fate: Fate)
    requires NodeInv(n) && Watched(n) && !Waiting(n)
    ensures Watched(DispatchF(TimeoutF(n), fate))
  {
    hide NodeInv, Quiet, NextF, ScheduleRetryF, Spares, Disciplined, Released, Deliverable;
    var m := TimeoutF(n);
    TimeoutKeeps(n);
    QuietDb(m);
    NextQuiet(m.db);
    SparesNow(m.db, NextF(m.db).0);
    if n.inFlight.Some? { RetryFields(n.db, n.inFlight.value.commandId); }
    assert Watched(m);
    var (db, next) := NextF(m.db);
    if next.Some? && fate.Taken? {
      WatchedAppend(m, Sent(next.value.commandId, db.now), DispatchF(m, fate));
    }
    assert next.Some? && fate.Refused? ==> DispatchF(m, fate).db.now == m.db.now by {
      RetryFields(db, if next.Some? then next.value.commandId else "");
    }
  }

  lemma {:induction false} WatchedRun(n: Node, steps: seq<Step>)
    requires NodeInv(n) && Watched(n)
    ensures Disciplined(RunF(n, steps).log)
    decreases |steps|
  {
    if steps != [] {
      StepKeeps(n, steps[0]);
      WatchedStep(n, steps[0]);
      WatchedRun(StepF(n, steps[0]), steps[1..]);
    }
  }

  /** In every run, on every connection: no second command is sent while one that is
      younger than the ack timeout is unanswered. */
  lemma OneInFlight(s: Redis, steps: seq<Step>)
    requires Quiet(s)
    ensures Disciplined(RunF(Connected(s), steps).log)
  {
    ConnectedInv(s);
    WatchedRun(Connected(s), steps);
  }

  // ---------------------------------------------------------------- outcomes

  /** Run and action side effects hang on outcomes; a command has at most one. */
  ghost predicate OutcomesOnce(n: Node) {
    && (forall c :: Outcome(c) in n.log ==> c in n.db.issued && c !in n.db.entries)
    && (forall i, j :: 0 <= i < j < |n.log| && n.log[i].Outcome? ==> n.log[i] != n.log[j])
  }

  lemma OutcomesStep(n: Node, step: Step)
    requires NodeInv(n) && OutcomesOnce(n)
    ensures OutcomesOnce(StepF(n, step))
  {
    hide Quiet, NextF, ReadF, AckF, PublishF, ScheduleRetryF, LedgerOf;
    match step
    case Loop(fate) =>
      if n.running && !Waiting(n) { OutcomesLoop(n, fate); }
    case Arrive(ack) =>
      var c := ack.commandId;
      AckQuiet(n.db, ack);
      AckIssued(n.db, ack);
      forall d | d in n.db.issued ensures d in AckF(n.db, ack).0.entries ==> d in n.db.entries {
        assert SparesOne(n.db, AckF(n.db, ack).0, d, {c});
      }
      assert AckF(n.db, ack).1.Terminal() ==> Outcome(c) !in n.log;
    case Publish(c, commandType, payload, gap) =>
      PublishQuiet(n.db, c, commandType, payload, gap);
      forall d | d in n.db.issued ensures SparesOne(n.db, PublishF(n.db, c, commandType, payload, gap), d, {}) {}
    case StaleRead =>
      ReadQuiet(n.db, New);
      SparesEntries(n.db, ReadF(n.db, New).0);
    case _ =>
  }

  lemma OutcomesLoop(n: Node, fate: Fate)
    requires NodeInv(n) && OutcomesOnce(n)
    ensures OutcomesOnce(DispatchF(TimeoutF(n), fate))
  {
    hide Quiet, NextF, Spares, LedgerOf;
    var m := TimeoutF(n);
    TimeoutKeeps(n);
    NextQuiet(m.db);
    assert m.db.entries == n.db.entries && m.db.issued == n.db.issued && m.log == n.log;
    hide NodeInv, ScheduleRetryF, TimeoutF;
    var (db, next) := NextF(m.db);
    SparesEntries(m.db, db);
    if next.Some? { RetryKeepsEntries(db, next.value.commandId); }
  }

  lemma SparesEntries(s: Redis, t: Redis)
    requires Spares(s, t, {})
    ensures forall c :: c in s.issued && c in t.entries ==> c in s.entries
  {
    forall c | c in s.issued && c in t.entries ensures c in s.entries {
      assert SparesOne(s, t, c, {});
    }
  }

  lemma RetryKeepsEntries(s: Redis, c: CommandId)
    ensures ScheduleRetryF(s, c).entries == s.entries && ScheduleRetryF(s, c).issued == s.issued
  {
  }

  predicate OutcomeAdded(log: seq<Event>, more: seq<Event>, c: CommandId) {
    more == log + [Acknowledged(c), Outcome(c)]
  }

  /** An ack is followed by the outcome of its command exactly if it finds the command registered
      and unanswered and does not ask for it again, whether it is positive or not. */
  lemma OutcomeIff(n: Node, ack: AckMessage)
    ensures var c, m := ack.commandId, StepF(n, Arrive(ack));
      if n.db.EntryVisible(c) && !n.db.AckVisible(c) && !AsksAgain(ack) then OutcomeAdded(n.log, m.log, c)
      else m.log == n.log + [Acknowledged(c)]
  {
    hide ScheduleRetryF, DeleteF, Apply, RetryDelayMs, AttemptsOf;
    var c := ack.commandId;
    assert n.log + [Acknowledged(c)] + [Outcome(c)] == n.log + [Acknowledged(c), Outcome(c)];
    assert n.log + [Acknowledged(c)] + [] == n.log + [Acknowledged(c)];
  }

  lemma {:induction false} OutcomesRun(n: Node, steps: seq<Step>)
    requires NodeInv(n) && OutcomesOnce(n)
    ensures OutcomesOnce(RunF(n, steps))
    decreases |steps|
  {
    if steps != [] {
      StepKeeps(n, steps[0]);
      OutcomesStep(n, steps[0]);
      OutcomesRun(StepF(n, steps[0]), steps[1..]);
    }
  }

  lemma AtMostOneOutcome(s: Redis, steps: seq<Step>)
    requires Quiet(s)
    ensures var log := RunF(Connected(s), steps).log;
      forall i, j :: 0 <= i < j < |log| && log[i].Outcome? ==> log[i] != log[j]
  {
    ConnectedInv(s);
    OutcomesRun(Connected(s), steps);
  }

  // ---------------------------------------------------------------- order of first sends

  ghost predicate FirstSend(log: seq<Event>, i: nat)
    requires i < |log|
  {
    log[i].Sent? && SendCount(log[..i], log[i].c) == 0
  }

  /** Enqueue order is the order of stream ids. */
  ghost predicate FirstSendsOrdered(log: seq<Event>, issued: map<CommandId, Issue>) {
    forall i, j :: 0 <= i < j < |log| && FirstSend(log, i) && FirstSend(log, j) ==>
      && log[i].c in issued && log[j].c in issued
      && issued[log[i].c].streamId < issued[log[j].c].streamId
  }

  /** The loop is about to send a command for the first time. */
  predicate FirstSendDue(n: Node) {
    var next := NextF(n.db).1;
    next.Some? && SendCount(n.log, next.value.commandId) == 0
  }

  /** A stale read takes a command that was never sent. */
  predicate FirstSendTaken(n: Node) {
    var read := ReadF(n.db, New).1;
    read.Some? && SendCount(n.log, read.value.commandId) == 0
  }

  /** The steps that put off a live command before its first send: the socket fails at that
      send, the connection is gone when the command is read, or the device asks for a retry
      of a command it was never sent. */
  ghost predicate Overtakes(n: Node, step: Step) {
    match step
    case Loop(fate) => !fate.Taken? && n.running && !Waiting(n) && FirstSendDue(TimeoutF(n))
    case Arrive(ack) =>
      && AckF(n.db, ack).1.Retry? && ack.commandId in n.db.issued
      && Live(n.db, ack.commandId) && SendCount(n.log, ack.commandId) == 0
    case StaleRead => FirstSendTaken(n)
    case _ => false
  }

  ghost predicate NoneOvertaken(n: Node, steps: seq<Step>)
    decreases |steps|
  {
    steps != [] ==> !Overtakes(n, steps[0]) && NoneOvertaken(StepF(n, steps[0]), steps[1..])
  }

  ghost predicate CursorOk(s: Redis, log: seq<Event>, c: CommandId)
    requires c in s.issued
  {
    if s.issued[c].streamId <= s.delivered then Live(s, c) ==> 0 < SendCount(log, c)
    else SendCount(log, c) == 0 && (Live(s, c) ==> c !in s.retries)
  }

  ghost predicate CursorInv(n: Node) {
    && NodeInv(n)
    && FirstSendsOrdered(n.log, n.db.issued)
    && (n.inFlight.Some? ==> 0 < SendCount(n.log, n.inFlight.value.commandId))
    && forall c :: c in n.db.issued ==> CursorOk(n.db, n.log, c)
  }

  lemma {:induction false} FirstAfterIsFirst(stream: seq<Message>, from: StreamId)
    requires Increasing(stream)
    ensures FirstAfter(stream, from).Some? ==>
      forall m :: m in stream && from < m.id ==> FirstAfter(stream, from).value.id <= m.id
  {
    if stream != [] {
      var rest := stream[1..];
      FirstAfterIsFirst(rest, from);
      assert forall m :: m in rest ==> stream[0].id < m.id;
    }
  }

  /** The cursor stands on command `c`, and nothing still queued was passed over. */
  ghost predicate MovedTo(s: Redis, t: Redis, c: CommandId)
    requires c in t.issued
  {
    && s.delivered < t.delivered == t.issued[c].streamId && Live(t, c)
    && (forall d :: d in t.issued && IsQueued(t, d) && s.delivered < t.issued[d].streamId ==>
          t.delivered <= t.issued[d].streamId)
  }

  ghost predicate HandedOut(t: Redis, c: CommandId, r: Option<Command>) {
    if r.Some? then r.value.commandId == c else c in t.retries
  }

  /** Pending reads leave the cursor alone and only yield what is behind it. */
  lemma PendingCursor(s: Redis)
    requires Quiet(s)
    ensures var (t, r) := ReadF(s, Pending);
      && t == CleanupF(s)
      && (r.Some? ==> r.value.commandId in t.issued && t.issued[r.value.commandId].streamId <= t.delivered)
  {
    hide Inv, CleanupF;
    CleanupQuiet(s);
    var clean := CleanupF(s);
    var m := PendingHead(clean);
    if m.Some? {
      StreamIssue(clean, m.value);
      assert m.value.id == clean.pending[0] && clean.pending[0] in clean.pending;
      assert m.value.id <= clean.delivered;
    }
  }

  lemma QuietMessage(s: Redis, m: Message)
    requires Quiet(s) && m in s.stream
    ensures m.body.Some? && m.body.value.commandId in s.issued && s.issued[m.body.value.commandId].streamId == m.id
    ensures !Removable(m, s.now) ==> Live(s, m.body.value.commandId)
  {
    StreamIssue(s, m);
  }

  lemma NewRead(s: Redis, m: Message)
    requires Quiet(s) && FirstAfter(CleanupF(s).stream, CleanupF(s).delivered) == Some(m)
    ensures m.body.Some? && var c := m.body.value.commandId; var t := Apply(CleanupF(s), XReadNew);
      && ReadF(s, New) == (t, if BackedOff(t, c) then None else Some(m.body.value))
      && t == CleanupF(s).(delivered := m.id, pending := CleanupF(s).pending + [m.id])
      && c in t.issued && t.issued[c].streamId == m.id && Live(t, c)
  {
    hide Quiet, Inv, CleanupF, Spares, FirstAfter, BackedOff, DiscardF, DeleteF;
    CleanupQuiet(s);
    SparesNow(s, CleanupF(s));
    QuietMessage(CleanupF(s), m);
  }

  /** A read of new messages moves the cursor to the next queued command; that one is
      handed out unless it is backing off. */
  lemma NewCursor(s: Redis)
    requires Quiet(s)
    ensures var (t, r) := ReadF(s, New);
      && t.issued == s.issued
      && (t.delivered == s.delivered ==> r.None?)
      && (t.delivered != s.delivered ==> exists c :: c in t.issued && MovedTo(s, t, c) && HandedOut(t, c, r))
  {
    hide Inv, CleanupF, ReadF;
    CleanupQuiet(s);
    var clean := CleanupF(s);
    InvIncreasing(clean);
    FirstAfterIsFirst(clean.stream, clean.delivered);
    match FirstAfter(clean.stream, clean.delivered)
    case None =>
      assert ReadF(s, New) == (clean, None) by { EmptyNewRead(s); }
    case Some(m) =>
      NewRead(s, m);
      hide Quiet, Apply, Live;
      var (t, r) := ReadF(s, New);
      var c := m.body.value.commandId;
      assert MovedTo(s, t, c) && HandedOut(t, c, r);
  }

  lemma EmptyNewRead(s: Redis)
    requires FirstAfter(CleanupF(s).stream, CleanupF(s).delivered) == None
    ensures ReadF(s, New) == (CleanupF(s), None)
  {
    hide CleanupF;
  }

  // ---------------------------------------------------------------- steps keep the order

  lemma FirstSendAppend(log: seq<Event>, e: Event)
    ensures forall i: nat :: i < |log| ==> (FirstSend(log + [e], i) <==> FirstSend(log, i))
    ensures FirstSend(log + [e], |log|) <==> e.Sent? && SendCount(log, e.c) == 0
  {
    forall i: nat | i < |log| ensures FirstSend(log + [e], i) <==> FirstSend(log, i) {
      assert (log + [e])[..i] == log[..i];
    }
    assert (log + [e])[..|log|] == log;
  }

  lemma {:induction false} SentCommand(log: seq<Event>, i: nat)
    requires i < |log| && log[i].Sent?
    ensures 0 < SendCount(log, log[i].c)
  {
    if i < |log| - 1 { SentCommand(log[..|log| - 1], i); }
  }

  lemma SendersIssued(n: Node)
    requires NodeInv(n)
    ensures forall c :: 0 < SendCount(n.log, c) ==> c in n.db.issued
  {
  }

  lemma OrderAppend(n: Node, m: Node, e: Event)
    requires NodeInv(n) && FirstSendsOrdered(n.log, n.db.issued) && m.log == n.log + [e] && m.db.issued == n.db.issued
    requires e.Sent? && SendCount(n.log, e.c) == 0 ==>
      && e.c in n.db.issued
      && forall d :: d in n.db.issued && 0 < SendCount(n.log, d) ==> n.db.issued[d].streamId < n.db.issued[e.c].streamId
    ensures FirstSendsOrdered(m.log, m.db.issued)
  {
    FirstSendAppend(n.log, e);
    SendersIssued(n);
    hide NodeInv, SendCount;
    forall i, j | 0 <= i < j < |m.log| && FirstSend(m.log, i) && FirstSend(m.log, j)
      ensures m.log[i].c in m.db.issued && m.log[j].c in m.db.issued
      ensures m.db.issued[m.log[i].c].streamId < m.db.issued[m.log[j].c].streamId
    {
      assert FirstSend(n.log, i);
      SentCommand(n.log, i);
      if j < |n.log| { assert FirstSend(n.log, j); }
    }
  }

  lemma CursorSent(n: Node, c: CommandId)
    requires NodeInv(n) && FirstSendsOrdered(n.log, n.db.issued) && n.inFlight.None? && c in n.db.issued
    requires n.db.issued[c].streamId <= n.db.delivered && Live(n.db, c) && !BackedOff(n.db, c)
    requires forall d :: d in n.db.issued && d != c ==> CursorOk(n.db, n.log, d)
    requires SendCount(n.log, c) == 0 ==>
      forall d :: d in n.db.issued && 0 < SendCount(n.log, d) ==> n.db.issued[d].streamId < n.db.issued[c].streamId
    ensures CursorInv(n.(inFlight := Some(Flight(c, n.db.now)), log := n.log + [Sent(c, n.db.now)]))
  {
    hide NodeInv, SendCount, Live, BackedOff, FirstSendsOrdered;
    var e := Sent(c, n.db.now);
    var m := n.(inFlight := Some(Flight(c, n.db.now)), log := n.log + [e]);
    SentKeeps(n, c);
    OrderAppend(n, m, e);
    forall d ensures SendCount(m.log, d) == SendCount(n.log, d) + if d == c then 1 else 0 {
      LogAppend(n.log, e, d);
    }
  }

  /** The queue changes behind a cursor that stays. */
  lemma CursorSpared(n: Node, t: Redis, except: set<CommandId>)
    requires CursorInv(n) && Spares(n.db, t, except)
    requires t.issued == n.db.issued && t.delivered == n.db.delivered
    ensures forall c :: c in t.issued && (c in except ==> 0 < SendCount(n.log, c)) ==> CursorOk(t, n.log, c)
  {
    hide NodeInv, SendCount;
    forall c | c in t.issued && (c in except ==> 0 < SendCount(n.log, c)) ensures CursorOk(t, n.log, c) {
      assert CursorOk(n.db, n.log, c) && SparesOne(n.db, t, c, except);
    }
  }

  lemma CursorTimeout(n: Node)
    requires CursorInv(n)
    ensures CursorInv(TimeoutF(n)) && TimeoutF(n).inFlight.None?
  {
    hide Quiet, ScheduleRetryF, Spares, NodeInv, CursorOk, FirstSendsOrdered;
    TimeoutKeeps(n);
    QuietDb(n);
    if n.inFlight.Some? {
      var c := n.inFlight.value.commandId;
      ScheduleQuiet(n.db, c);
      CursorSpared(n, ScheduleRetryF(n.db, c), {c});
    }
  }

  /** An ack keeps the cursor in order unless it puts off a live command nobody was sent. */
  lemma CursorAcked(n: Node, ack: AckMessage)
    requires CursorInv(n)
    ensures var t := AckF(n.db, ack).0;
      (forall c :: c in t.issued ==> CursorOk(t, n.log, c)) <==> !Overtakes(n, Arrive(ack))
  {
    hide Quiet, AckF, Spares, NodeInv, FirstSendsOrdered, SendCount;
    QuietDb(n);
    var c := ack.commandId;
    var (t, outcome) := AckF(n.db, ack);
    AckQuiet(n.db, ack);
    AckIssued(n.db, ack);
    CursorSpared(n, t, {c});
    if c in n.db.issued {
      assert CursorOk(n.db, n.log, c);
      if outcome.Retry? { RetryPutsOff(n.db, c); }
    }
  }

  lemma RetryPutsOff(s: Redis, c: CommandId)
    requires c in s.issued
    ensures var t := ScheduleRetryF(s, c);
      c in t.retries && c in t.issued && t.issued[c] == s.issued[c] && t.delivered == s.delivered
        && (Live(t, c) <==> Live(s, c))
  {
    hide RetryDelayMs, AttemptsOf;
  }

  lemma CursorArrive(n: Node, ack: AckMessage)
    requires CursorInv(n)
    ensures CursorInv(ArriveF(n, ack)) <==> !Overtakes(n, Arrive(ack))
  {
    hide Quiet, AckF, Spares, NodeInv, FirstSendsOrdered, SendCount, CursorOk, Overtakes;
    ArriveKeeps(n, ack);
    var c := ack.commandId;
    var t := AckF(n.db, ack).0;
    CursorAcked(n, ack);
    AckIssued(n.db, ack);
    CursorNote(t, n.log, Acknowledged(c));
    CursorNote(t, n.log + [Acknowledged(c)], Outcome(c));
    assert n.log + [Acknowledged(c)] + [] == n.log + [Acknowledged(c)];
  }

  /** Events that are not sends. */
  lemma CursorNote(s: Redis, log: seq<Event>, e: Event)
    requires !e.Sent?
    ensures forall c :: SendCount(log + [e], c) == SendCount(log, c)
    ensures FirstSendsOrdered(log, s.issued) ==> FirstSendsOrdered(log + [e], s.issued)
    ensures forall c :: c in s.issued ==> (CursorOk(s, log + [e], c) <==> CursorOk(s, log, c))
  {
    forall c ensures SendCount(log + [e], c) == SendCount(log, c) { LogAppend(log, e, c); }
    FirstSendAppend(log, e);
    hide SendCount, FirstSend;
    assert forall i: nat :: i < |log| ==> (log + [e])[i] == log[i];
  }

  lemma QuietDb(n: Node)
    requires NodeInv(n)
    ensures Quiet(n.db) && n.db.delivered <= n.db.lastId
    ensures n.inFlight.Some? ==> n.inFlight.value.commandId in n.db.issued
  {
  }

  lemma CursorPublish(n: Node, c: CommandId, commandType: string, payload: string, gap: nat)
    requires CursorInv(n)
    ensures CursorInv(n.(db := PublishF(n.db, c, commandType, payload, gap)))
  {
    hide NodeInv, PublishF, SendCount, Live, Quiet, SparesOne, FirstSend;
    PublishKeeps(n, c, commandType, payload, gap);
    SendersIssued(n);
    QuietDb(n);
    var t := PublishF(n.db, c, commandType, payload, gap);
    PublishQuiet(n.db, c, commandType, payload, gap);
    forall d | d in t.issued ensures CursorOk(t, n.log, d) {
      if d in n.db.issued {
        assert CursorOk(n.db, n.log, d);
        LiveSpared(n.db, t, d);
      }
    }
    forall d | d in n.db.issued ensures d in t.issued && t.issued[d] == n.db.issued[d] { LiveSpared(n.db, t, d); }
  }

  lemma LiveSpared(s: Redis, t: Redis, c: CommandId)
    requires c in s.issued && SparesOne(s, t, c, {}) && s.now == t.now
    ensures c in t.issued && t.issued[c] == s.issued[c] && (Live(t, c) ==> Live(s, c))
    ensures c in t.retries ==> c in s.retries
  {
  }

  /** The cursor moves to a command nobody was sent, and behind it nothing is left out. */
  lemma CursorMoved(s: Redis, t: Redis, log: seq<Event>, c: CommandId)
    requires Inv(t) && Spares(s, t, {}) && t.issued == s.issued && c in t.issued && MovedTo(s, t, c)
    requires forall d :: d in s.issued ==> CursorOk(s, log, d)
    ensures SendCount(log, c) == 0 && c !in t.retries
    ensures forall d :: d in t.issued && d != c ==> CursorOk(t, log, d)
    ensures forall d :: d in t.issued && 0 < SendCount(log, d) ==> t.issued[d].streamId < t.issued[c].streamId
  {
    IdsDistinct(t, c);
    hide Inv, SendCount;
    assert CursorOk(s, log, c) && SparesOne(s, t, c, {});
    forall d | d in t.issued ensures d != c ==> CursorOk(t, log, d)
      ensures 0 < SendCount(log, d) ==> t.issued[d].streamId < t.issued[c].streamId
    {
      assert CursorOk(s, log, d);
      LiveSpared(s, t, d);
    }
  }

  lemma CursorPendingSend(n: Node, c: CommandId)
    requires CursorInv(n) && n.inFlight.None? && c in n.db.issued && n.db.issued[c].streamId <= n.db.delivered
    requires Live(n.db, c) && !BackedOff(n.db, c)
    ensures CursorInv(n.(inFlight := Some(Flight(c, n.db.now)), log := n.log + [Sent(c, n.db.now)]))
  {
    hide NodeInv, SendCount, Live, FirstSendsOrdered;
    assert CursorOk(n.db, n.log, c);
    CursorSent(n, c);
  }

  lemma CursorNewSend(n: Node, t: Redis, r: Option<Command>)
    requires CursorInv(n) && n.inFlight.None? && NodeInv(n.(db := t)) && Spares(n.db, t, {})
    requires (t, r) == ReadF(n.db, New)
    ensures CursorInv(if r.None? then n.(db := t)
                      else n.(db := t, inFlight := Some(Flight(r.value.commandId, t.now)),
                              log := n.log + [Sent(r.value.commandId, t.now)]))
  {
    hide NodeInv, SendCount, Live, FirstSendsOrdered, ReadF, Spares, Quiet;
    QuietDb(n);
    ReadQuiet(n.db, New);
    NewCursor(n.db);
    if t.delivered == n.db.delivered {
      CursorSpared(n, t, {});
    } else {
      var c :| c in t.issued && MovedTo(n.db, t, c) && HandedOut(t, c, r);
      QuietInv(t);
      CursorMoved(n.db, t, n.log, c);
      CursorSent(n.(db := t), c);
    }
  }

  lemma QuietInv(s: Redis)
    requires Quiet(s)
    ensures Inv(s)
  {
  }

  lemma CursorDispatch(n: Node)
    requires CursorInv(n) && n.inFlight.None?
    ensures CursorInv(DispatchF(n, Taken))
  {
    hide NodeInv, SendCount, Live, FirstSendsOrdered, ReadF, Spares, Quiet, CleanupF, CursorOk, BackedOff;
    QuietDb(n);
    var (s1, r1) := ReadF(n.db, Pending);
    ReadQuiet(n.db, Pending);
    PendingCursor(n.db);
    CleanupQuiet(n.db);
    SparedNode(n, s1);
    CursorSpared(n, s1, {});
    var m := n.(db := s1);
    if r1.Some? {
      CursorPendingSend(m, r1.value.commandId);
    } else {
      var (t, r) := ReadF(s1, New);
      ReadQuiet(s1, New);
      NewCursor(s1);
      SparedNode(m, t);
      CursorNewSend(m, t, r);
    }
  }

  lemma CursorRetry(n: Node, c: CommandId)
    requires CursorInv(n) && n.inFlight.None? && c in n.db.issued && 0 < SendCount(n.log, c)
    ensures CursorInv(n.(db := ScheduleRetryF(n.db, c), running := false))
  {
    hide Quiet, Spares, NodeInv, ScheduleRetryF, SendCount, FirstSendsOrdered, CursorOk;
    QuietDb(n);
    ScheduleQuiet(n.db, c);
    ScheduleKeeps(n, c);
    RunningIrrelevant(n.(db := ScheduleRetryF(n.db, c)), false);
    CursorSpared(n, ScheduleRetryF(n.db, c), {c});
  }

  /** A live command that is put off behind the cursor before its first send. */
  lemma CursorBroken(n: Node, c: CommandId)
    requires c in n.db.issued && Live(n.db, c) && n.db.issued[c].streamId <= n.db.delivered && SendCount(n.log, c) == 0
    ensures !CursorInv(n)
  {
    hide NodeInv, Live, SendCount;
    assert !CursorOk(n.db, n.log, c);
  }

  /** A stale read keeps the order exactly if it takes nothing: what it takes was never sent. */
  lemma CursorStaleRead(n: Node)
    requires CursorInv(n)
    ensures CursorInv(n.(db := ReadF(n.db, New).0)) <==> !FirstSendTaken(n)
  {
    hide NodeInv, SendCount, Live, FirstSendsOrdered, ReadF, Spares, Quiet, CleanupF, BackedOff, CursorOk;
    QuietDb(n);
    var (t, r) := ReadF(n.db, New);
    ReadQuiet(n.db, New);
    NewCursor(n.db);
    SparedNode(n, t);
    if t.delivered == n.db.delivered {
      CursorSpared(n, t, {});
    } else {
      var c :| c in t.issued && MovedTo(n.db, t, c) && HandedOut(t, c, r);
      QuietInv(t);
      CursorMoved(n.db, t, n.log, c);
      CursorBroken(n.(db := t), c);
    }
  }

  /** A send that fails, or a connection that is gone, keeps the order exactly if it was not
      about a first send. */
  lemma CursorNotSent(n: Node, fate: Fate)
    requires CursorInv(n) && n.inFlight.None? && !fate.Taken?
    ensures CursorInv(DispatchF(n, fate)) <==> !FirstSendDue(n)
  {
    hide NodeInv, SendCount, Live, FirstSendsOrdered, ReadF, Spares, Quiet, CleanupF, BackedOff, ScheduleRetryF;
    QuietDb(n);
    var (s1, r1) := ReadF(n.db, Pending);
    ReadQuiet(n.db, Pending);
    PendingCursor(n.db);
    CleanupQuiet(n.db);
    SparedNode(n, s1);
    CursorSpared(n, s1, {});
    var m := n.(db := s1);
    if r1.Some? {
      assert CursorOk(s1, n.log, r1.value.commandId);
      RunningIrrelevant(m, false);
      CursorRetry(m, r1.value.commandId);
    } else {
      var (t, r) := ReadF(s1, New);
      ReadQuiet(s1, New);
      NewCursor(s1);
      SparedNode(m, t);
      RunningIrrelevant(n.(db := t), false);
      CursorNewSend(m, t, r);
      if r.Some? {
        var c :| c in t.issued && MovedTo(s1, t, c) && HandedOut(t, c, r);
        QuietInv(t);
        CursorMoved(s1, t, n.log, c);
        RetryPutsOff(t, c);
        CursorBroken(DispatchF(n, fate), c);
      }
    }
  }

  /** Every step keeps the cursor in order, except exactly those that put off a live command
      before its first send. */
  lemma CursorStep(n: Node, step: Step)
    requires CursorInv(n)
    ensures CursorInv(StepF(n, step)) <==> !Overtakes(n, step)
  {
    hide NodeInv, SendCount, FirstSendsOrdered, TimeoutF, DispatchF, ArriveF, PublishF, FirstSendDue;
    StepKeeps(n, step);
    match step
    case Loop(fate) =>
      CursorTimeout(n);
      if fate.Taken? { CursorDispatch(TimeoutF(n)); } else { CursorNotSent(TimeoutF(n), fate); }
    case Arrive(ack) => CursorArrive(n, ack);
    case Publish(c, commandType, payload, gap) => CursorPublish(n, c, commandType, payload, gap);
    case Restart => CursorNote(n.db, n.log, Interrupted);
    case Close => CursorNote(n.db, n.log, Interrupted);
    case LateClose => CursorNote(n.db, n.log, Interrupted);
    case StaleRead => CursorStaleRead(n);
    case Elapse(ms) =>
      forall c | c in n.db.issued ensures CursorOk(Apply(n.db, Tick(ms)), n.log, c) {
        assert CursorOk(n.db, n.log, c);
      }
  }

  lemma {:induction false} CursorRun(n: Node, steps: seq<Step>)
    requires CursorInv(n) && NoneOvertaken(n, steps)
    ensures CursorInv(RunF(n, steps))
    decreases |steps|
  {
    if steps != [] {
      CursorStep(n, steps[0]);
      CursorRun(StepF(n, steps[0]), steps[1..]);
    }
  }

  lemma StartCursor()
    ensures CursorInv(Connected(EMPTY))
  {
    ConnectedInv(EMPTY);
  }

  /** Retries may be overtaken, but as long as no command is put off before its first send,
      first sends follow the order of enqueues, across any number of connections. */
  lemma FirstSendsInEnqueueOrder(steps: seq<Step>)
    requires NoneOvertaken(Connected(EMPTY), steps)
    ensures var n := RunF(Connected(EMPTY), steps); FirstSendsOrdered(n.log, n.db.issued)
  {
    hide RunF, NoneOvertaken;
    StartCursor();
    CursorRun(Connected(EMPTY), steps);
  }
}

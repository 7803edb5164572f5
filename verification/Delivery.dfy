/**
 When the gateway loop sends, and what the COUNT 1 of its reads means: only the oldest pending
 command is ever tried again.
 */
module Delivery {
  import opened Wrappers
  import opened RedisQueue
  import opened DeviceCommands
  import opened QueueProperties
  import opened Gateway
  import opened SendBudget
  import opened GatewayRuns

  /** The command a message carries is not waiting for its backoff time. */
  predicate Due(s: Redis, m: Option<Message>) {
    m.Some? && m.value.body.Some? && !BackedOff(s, m.value.body.value.commandId)
  }

  // ---------------------------------------------------------------- one read

  lemma CleanAgain(s: Redis)
    requires Quiet(s)
    ensures CleanupF(CleanupF(s)) == CleanupF(s)
  {
    hide Quiet, CleanupF;
    CleanupQuiet(s);
    CleanupQuietNow(s);
    CleanupNothing(CleanupF(s));
  }

  lemma CleanupQuietNow(s: Redis)
    requires Quiet(s)
    ensures CleanupF(s).now == s.now
  {
    CleanupEffect(s);
  }

  /** A pending read yields the oldest pending command if it is due, and nothing else. */
  lemma PendingReadYields(s: Redis)
    requires Quiet(s)
    ensures var clean, head := CleanupF(s), PendingHead(CleanupF(s));
      && (head.Some? ==> head.value in clean.stream && head.value.body.Some?)
      && ReadF(s, Pending) == (clean, if Due(clean, head) then head.value.body else None)
  {
    hide Quiet, CleanupF, BackedOff, DiscardF, DeleteF;
    CleanupQuiet(s);
    CleanupQuietNow(s);
    var clean := CleanupF(s);
    var head := PendingHead(clean);
    if head.Some? { QuietMessage(clean, head.value); }
  }

  /** A read of new messages yields the next one if it is due; the cursor moves to it anyway. */
  lemma NewReadYields(s: Redis)
    requires Quiet(s)
    ensures var clean := CleanupF(s); var next := FirstAfter(clean.stream, clean.delivered);
      && (next.Some? ==> next.value.body.Some?)
      && ReadF(s, New) == (Apply(clean, XReadNew), if Due(clean, next) then next.value.body else None)
  {
    hide Quiet, CleanupF, RetryDelayMs;
    var clean := CleanupF(s);
    var next := FirstAfter(clean.stream, clean.delivered);
    if next.Some? {
      NewRead(s, next.value);
      SameRetries(clean, next.value.body.value.commandId);
    } else {
      EmptyNewRead(s);
    }
  }

  lemma SameRetries(s: Redis, c: CommandId)
    ensures BackedOff(Apply(s, XReadNew), c) <==> BackedOff(s, c)
  {
  }

  /** Both reads of one iteration, after the first cleanup. */
  lemma NextYields(s: Redis)
    requires Quiet(s)
    ensures var clean := CleanupF(s);
      var head, next := PendingHead(clean), FirstAfter(clean.stream, clean.delivered);
      NextF(s) == if Due(clean, head) then (clean, head.value.body)
                  else (Apply(clean, XReadNew), if Due(clean, next) then next.value.body else None)
  {
    hide Quiet, CleanupF, ReadF, Due, Apply;
    PendingReadYields(s);
    CleanupQuiet(s);
    NewReadYields(CleanupF(s));
    CleanAgain(s);
    DueHasBody(CleanupF(s), PendingHead(CleanupF(s)));
  }

  lemma DueHasBody(s: Redis, m: Option<Message>)
    ensures Due(s, m) ==> m.Some? && m.value.body.Some?
  {
  }

  // ---------------------------------------------------------------- when the loop sends

  predicate Sends(n: Node) {
    StepF(n, Loop(Taken)).log != n.log
  }

  /** An iteration sends a command exactly if nothing younger than the timeout is in flight
      and the oldest pending command, or else the next new one, is due. */
  lemma SendsIff(n: Node)
    requires NodeInv(n)
    ensures var clean := CleanupF(TimeoutF(n).db);
      Sends(n) <==>
      && n.running && !Waiting(n)
      && (Due(clean, PendingHead(clean)) || Due(clean, FirstAfter(clean.stream, clean.delivered)))
  {
    hide NodeInv, Quiet, NextF, Due, CleanupF, Apply, ScheduleRetryF;
    TimeoutKeeps(n);
    var m := TimeoutF(n);
    QuietDb(m);
    NextYields(m.db);
    DueHasBody(CleanupF(m.db), PendingHead(CleanupF(m.db)));
    DueHasBody(CleanupF(m.db), FirstAfter(CleanupF(m.db).stream, CleanupF(m.db).delivered));
  }

  // ---------------------------------------------------------------- nothing is sent without a connection

  /** `more` adds to the log no sends. */
  ghost predicate NoSendAdded(log: seq<Event>, more: seq<Event>) {
    log <= more && forall i :: |log| <= i < |more| ==> !more[i].Sent?
  }

  /** What ends the loop: its connection closes, fails at a send, or is gone after a read. */
  predicate LosesConnection(n: Node, step: Step) {
    match step
    case Close => true
    case Loop(Refused) => Sends(n)
    case Loop(Gone) => n.running && !(n.inFlight.Some? && n.db.now < n.inFlight.value.sentAt + 15_000)
    case _ => false
  }

  lemma LossStops(n: Node, step: Step)
    requires LosesConnection(n, step)
    ensures !StepF(n, step).running && NoSendAdded(n.log, StepF(n, step).log)
  {
    hide NextF, ScheduleRetryF;
  }

  lemma IdleStep(n: Node, step: Step)
    requires !n.running && step != Restart
    ensures !StepF(n, step).running && NoSendAdded(n.log, StepF(n, step).log)
  {
    hide PublishF, AckF, ReadF;
  }

  lemma {:induction false} IdleRun(n: Node, steps: seq<Step>)
    requires !n.running && Restart !in steps
    ensures NoSendAdded(n.log, RunF(n, steps).log)
    decreases |steps|
  {
    hide StepF;
    if steps != [] {
      IdleStep(n, steps[0]);
      IdleRun(StepF(n, steps[0]), steps[1..]);
    }
  }

  /** After a connection is lost, in whatever way and from every node, nothing is sent until
      one opens again, whatever happens meanwhile. */
  lemma NothingSentUnconnected(n: Node, step: Step, steps: seq<Step>)
    requires LosesConnection(n, step) && Restart !in steps
    ensures NoSendAdded(n.log, RunF(StepF(n, step), steps).log)
  {
    hide RunF, StepF, LosesConnection;
    LossStops(n, step);
    IdleRun(StepF(n, step), steps);
  }

  // ---------------------------------------------------------------- repeats come from the head

  /** Whatever was sent is behind the cursor. */
  ghost predicate Behind(log: seq<Event>, issued: map<CommandId, Issue>, delivered: StreamId) {
    forall c :: c in issued && 0 < SendCount(log, c) ==> issued[c].streamId <= delivered
  }

  ghost predicate SentBehind(n: Node) {
    Behind(n.log, n.db.issued, n.db.delivered)
  }

  /** What a node hands out is behind the cursor; if it was there before, it is the oldest
      pending command. */
  lemma NextBehind(s: Redis)
    requires Quiet(s)
    ensures var (t, r) := NextF(s);
      && s.delivered <= t.delivered
      && (r.Some? ==>
            && r.value.commandId in t.issued && t.issued[r.value.commandId].streamId <= t.delivered
            && (t.issued[r.value.commandId].streamId <= s.delivered ==>
                  IsHead(CleanupF(s), t.issued[r.value.commandId].streamId)))
  {
    hide Quiet, CleanupF, NextF, Due, Apply, FirstAfter, Spares, Deliverable, Live;
    NextYields(s);
    NewReadMoves(CleanupF(s));
    CleanupQuiet(s);
    NextQuiet(s);
    var clean := CleanupF(s);
    var head, next := PendingHead(clean), FirstAfter(clean.stream, clean.delivered);
    PendingBehind(clean);
    DueHasBody(clean, head);
    DueHasBody(clean, next);
    if head.Some? {
      QuietMessage(clean, head.value);
      assert head.value.id == clean.pending[0] && clean.pending[0] in clean.pending;
    }
    if next.Some? { QuietMessage(clean, next.value); }
  }

  lemma NewReadMoves(s: Redis)
    ensures Apply(s, XReadNew).issued == s.issued
    ensures var next := FirstAfter(s.stream, s.delivered);
      && Apply(s, XReadNew).delivered == (if next.Some? then next.value.id else s.delivered)
      && (next.Some? ==> next.value in s.stream && s.delivered < next.value.id)
  {
  }

  predicate IsHead(s: Redis, id: StreamId) {
    s.pending != [] && s.pending[0] == id
  }

  lemma PendingBehind(s: Redis)
    requires Quiet(s)
    ensures forall id :: id in s.pending ==> id <= s.delivered
  {
  }

  lemma BehindNote(log: seq<Event>, e: Event, issued: map<CommandId, Issue>, delivered: StreamId)
    requires Behind(log, issued, delivered)
    requires e.Sent? && e.c in issued ==> issued[e.c].streamId <= delivered
    ensures Behind(log + [e], issued, delivered)
  {
    hide SendCount;
    forall c | c in issued && 0 < SendCount(log + [e], c) ensures issued[c].streamId <= delivered {
      LogAppend(log, e, c);
    }
  }

  lemma BehindLater(log: seq<Event>, issued: map<CommandId, Issue>, delivered: StreamId, later: StreamId)
    requires Behind(log, issued, delivered) && delivered <= later
    ensures Behind(log, issued, later)
  {
  }

  lemma BehindLoop(n: Node, fate: Fate)
    requires NodeInv(n) && SentBehind(n)
    ensures SentBehind(DispatchF(TimeoutF(n), fate))
  {
    hide NodeInv, Quiet, NextF, SendCount, ScheduleRetryF, IsHead, CleanupF, Behind, Spares, Deliverable, Live;
    var m := TimeoutF(n);
    TimeoutKeeps(n);
    QuietDb(n);
    QuietDb(m);
    if n.inFlight.Some? {
      RetryPutsOff(n.db, n.inFlight.value.commandId);
      RetryFields(n.db, n.inFlight.value.commandId);
    }
    NextQuiet(m.db);
    NextBehind(m.db);
    var (t, r) := NextF(m.db);
    BehindLater(m.log, m.db.issued, m.db.delivered, t.delivered);
    if r.Some? {
      var c := r.value.commandId;
      BehindNote(m.log, Sent(c, t.now), t.issued, t.delivered);
      RetryPutsOff(t, c);
      RetryFields(t, c);
    }
  }

  lemma BehindPublish(n: Node, c: CommandId, commandType: string, payload: string, gap: nat)
    requires NodeInv(n) && SentBehind(n)
    ensures SentBehind(n.(db := PublishF(n.db, c, commandType, payload, gap)))
  {
    hide NodeInv, Quiet, SendCount, PublishF;
    QuietDb(n);
    SendersIssued(n);
    PublishQuiet(n.db, c, commandType, payload, gap);
    var t := PublishF(n.db, c, commandType, payload, gap);
    forall d | d in n.db.issued ensures d in t.issued && t.issued[d] == n.db.issued[d] {
      assert SparesOne(n.db, t, d, {});
    }
  }

  lemma BehindRead(n: Node)
    requires NodeInv(n) && SentBehind(n)
    ensures SentBehind(n.(db := ReadF(n.db, New).0))
  {
    hide NodeInv, Quiet, Behind, ReadF, CleanupF, Apply, Spares, FirstAfter;
    QuietDb(n);
    CleanupQuiet(n.db);
    NewReadYields(n.db);
    NewReadMoves(CleanupF(n.db));
    BehindLater(n.log, n.db.issued, n.db.delivered, ReadF(n.db, New).0.delivered);
  }

  lemma BehindStep(n: Node, step: Step)
    requires NodeInv(n) && SentBehind(n)
    ensures SentBehind(StepF(n, step))
  {
    hide NodeInv, Quiet, SendCount, Behind, TimeoutF, DispatchF, ReadF, AckF, PublishF, Spares;
    match step
    case Loop(fate) => BehindLoop(n, fate);
    case Publish(c, commandType, payload, gap) => BehindPublish(n, c, commandType, payload, gap);
    case Arrive(ack) =>
      QuietDb(n);
      AckQuiet(n.db, ack);
      AckIssued(n.db, ack);
      BehindNote(n.log, Acknowledged(ack.commandId), n.db.issued, n.db.delivered);
      BehindNote(n.log + [Acknowledged(ack.commandId)], Outcome(ack.commandId), n.db.issued, n.db.delivered);
      assert n.log + [Acknowledged(ack.commandId)] + [] == n.log + [Acknowledged(ack.commandId)];
    case Restart => BehindNote(n.log, Interrupted, n.db.issued, n.db.delivered);
    case Close => BehindNote(n.log, Interrupted, n.db.issued, n.db.delivered);
    case LateClose => BehindNote(n.log, Interrupted, n.db.issued, n.db.delivered);
    case StaleRead => BehindRead(n);
    case Elapse(ms) =>
  }

  lemma {:induction false} BehindRun(n: Node, steps: seq<Step>)
    requires NodeInv(n) && SentBehind(n)
    ensures NodeInv(RunF(n, steps)) && SentBehind(RunF(n, steps))
    decreases |steps|
  {
    hide NodeInv, SentBehind, StepF;
    if steps != [] {
      StepKeeps(n, steps[0]);
      BehindStep(n, steps[0]);
      BehindRun(StepF(n, steps[0]), steps[1..]);
    }
  }

  lemma RepeatIsHead(n: Node, c: CommandId)
    requires NodeInv(n) && SentBehind(n) && 0 < SendCount(n.log, c)
    requires StepF(n, Loop(Taken)).log == n.log + [Sent(c, n.db.now)]
    ensures c in n.db.issued && IsHead(CleanupF(TimeoutF(n).db), n.db.issued[c].streamId)
  {
    hide NodeInv, Quiet, NextF, SendCount, ScheduleRetryF, IsHead, CleanupF, Spares, Deliverable, Live;
    SendersIssued(n);
    var m := TimeoutF(n);
    TimeoutKeeps(n);
    QuietDb(n);
    QuietDb(m);
    if n.inFlight.Some? {
      RetryPutsOff(n.db, n.inFlight.value.commandId);
      RetryFields(n.db, n.inFlight.value.commandId);
    }
    NextQuiet(m.db);
    NextBehind(m.db);
    var (t, r) := NextF(m.db);
    assert n.log + [Sent(c, n.db.now)] != n.log;
    assert r.Some? && (n.log + [Sent(r.value.commandId, t.now)])[|n.log|] == (n.log + [Sent(c, n.db.now)])[|n.log|];
  }

  lemma NothingSentBehind(s: Redis)
    ensures SentBehind(Connected(s))
  {
  }

  /** In every run a command is sent again only while it is the oldest pending one: behind a
      live head that is backing off, no other command is ever retried. */
  lemma RepeatsComeFromTheHead(s: Redis, steps: seq<Step>, c: CommandId)
    requires Quiet(s)
    ensures var n := RunF(Connected(s), steps);
      0 < SendCount(n.log, c) && StepF(n, Loop(Taken)).log == n.log + [Sent(c, n.db.now)] ==>
        c in n.db.issued && IsHead(CleanupF(TimeoutF(n).db), n.db.issued[c].streamId)
  {
    hide Quiet, RunF, NodeInv, SentBehind, StepF, IsHead, TimeoutF, CleanupF;
    ConnectedInv(s);
    NothingSentBehind(s);
    BehindRun(Connected(s), steps);
    var n := RunF(Connected(s), steps);
    if 0 < SendCount(n.log, c) && StepF(n, Loop(Taken)).log == n.log + [Sent(c, n.db.now)] { RepeatIsHead(n, c); }
  }

  // ---------------------------------------------------------------- what is sent was published

  /** The command of a publication at this time: it lives for fifteen minutes. */
  predicate Publishes(step: Step, at: nat, command: Command) {
    step.Publish? && command == Command(step.c, step.commandType, step.payload, at, at + 900_000)
  }

  predicate PublishedAt(steps: seq<Step>, i: nat, command: Command) {
    i < |steps| && Publishes(steps[i], RunF(Connected(EMPTY), steps[..i]).db.now, command)
  }

  lemma StepIssues(n: Node, step: Step, c: CommandId)
    requires NodeInv(n) && c in StepF(n, step).db.issued
    ensures var command := StepF(n, step).db.issued[c].command;
      if c in n.db.issued then command == n.db.issued[c].command else Publishes(step, n.db.now, command)
  {
    hide NodeInv, Quiet, NextF, ReadF, AckF, PublishF, ScheduleRetryF, Spares, Deliverable;
    QuietDb(n);
    match step
    case Loop(fate) =>
      var m := TimeoutF(n);
      if n.inFlight.Some? { RetryFields(n.db, n.inFlight.value.commandId); }
      TimeoutKeeps(n);
      QuietDb(m);
      NextQuiet(m.db);
      var (t, r) := NextF(m.db);
      if r.Some? { RetryFields(t, r.value.commandId); }
    case Publish(d, commandType, payload, gap) =>
      var t := PublishF(n.db, d, commandType, payload, gap);
      PublishQuiet(n.db, d, commandType, payload, gap);
      if c in n.db.issued { SparedIssue(n.db, t, c); }
    case Arrive(ack) => AckIssued(n.db, ack);
    case StaleRead => ReadQuiet(n.db, New);
    case _ =>
  }

  lemma SparedIssue(s: Redis, t: Redis, c: CommandId)
    requires Spares(s, t, {}) && c in s.issued
    ensures c in t.issued && t.issued[c] == s.issued[c]
  {
    assert SparesOne(s, t, c, {});
  }

  lemma {:induction false} IssuedWasPublished(steps: seq<Step>, c: CommandId)
    requires c in RunF(Connected(EMPTY), steps).db.issued
    ensures exists i: nat :: PublishedAt(steps, i, RunF(Connected(EMPTY), steps).db.issued[c].command)
    decreases |steps|
  {
    hide StepF, NodeInv, Publishes;
    if steps == [] {
      assert false;
    } else {
      var init, last := steps[..|steps| - 1], steps[|steps| - 1];
      var before := RunF(Connected(EMPTY), init);
      assert steps == init + [last];
      RunAppend(Connected(EMPTY), init, [last]);
      OneStep(before, last);
      EmptyIsQuiet();
      ConnectedInv(EMPTY);
      RunKeeps(Connected(EMPTY), init);
      StepIssues(before, last, c);
      var command := StepF(before, last).db.issued[c].command;
      if c in before.db.issued {
        IssuedWasPublished(init, c);
        var i: nat :| PublishedAt(init, i, command);
        assert init[..i] == steps[..i];
        assert PublishedAt(steps, i, command);
      } else {
        assert PublishedAt(steps, |init|, command);
      }
    }
  }

  lemma EmptyIsQuiet()
    ensures Quiet(EMPTY)
  {
  }

  /** In every run, what an iteration sends is, field by field, what was published under that id,
      less than fifteen minutes ago, and so is what an ack gets as its outcome. */
  lemma SentAsPublished(steps: seq<Step>)
    ensures var n := RunF(Connected(EMPTY), steps);
      Sends(n) ==>
        exists i: nat, command: Command ::
          && PublishedAt(steps, i, command) && n.db.now < command.ts + 900_000
          && NextF(TimeoutF(n).db).1 == Some(command)
          && StepF(n, Loop(Taken)).log == n.log + [Sent(command.commandId, n.db.now)]
  {
    hide RunF, NodeInv, Quiet, NextF, Spares, ScheduleRetryF, PublishedAt;
    var n := RunF(Connected(EMPTY), steps);
    EmptyIsQuiet();
    ConnectedInv(EMPTY);
    RunKeeps(Connected(EMPTY), steps);
    if Sends(n) {
      var m := TimeoutF(n);
      TimeoutKeeps(n);
      QuietDb(m);
      NextQuiet(m.db);
      var (t, r) := NextF(m.db);
      var command := r.value;
      SparesNow(m.db, t);
      if n.inFlight.Some? { RetryFields(n.db, n.inFlight.value.commandId); }
      IssuedWasPublished(steps, command.commandId);
      var i: nat :| PublishedAt(steps, i, command);
      PublishedLifetime(steps, i, command);
      assert PublishedAt(steps, i, command);
    }
  }

  lemma PublishedLifetime(steps: seq<Step>, i: nat, command: Command)
    requires PublishedAt(steps, i, command)
    ensures command.expiresAt == command.ts + 900_000
  {
  }

  lemma AckedAsPublished(steps: seq<Step>, ack: AckMessage)
    ensures var outcome := AckF(RunF(Connected(EMPTY), steps).db, ack).1;
      && (outcome.Terminal() ==> exists i: nat :: PublishedAt(steps, i, outcome.command.value))
      && (outcome.Retry? ==> exists i: nat :: PublishedAt(steps, i, outcome.retried))
  {
    hide RunF, NodeInv, PublishedAt, DeleteF, ScheduleRetryF, RetryDelayMs, AttemptsOf;
    EmptyIsQuiet();
    ConnectedInv(EMPTY);
    RunKeeps(Connected(EMPTY), steps);
    var n := RunF(Connected(EMPTY), steps);
    QuietDb(n);
    QuietInv(n.db);
    if ack.commandId in n.db.entries {
      EntryIssue(n.db, ack.commandId);
      IssuedWasPublished(steps, ack.commandId);
    }
  }
}

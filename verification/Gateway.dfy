/**
 The gateway loop of one device: it drains the queue one command at a time, with an
 in-flight marker and an ack timeout. A step is one atomic piece of the service; the
 log records what a device and an operator could observe.
 */
module Gateway {
  import opened Wrappers
  import opened RedisQueue
  import opened DeviceCommands
  import opened QueueProperties

  const ACK_TIMEOUT_MS: nat := 15_000

  datatype Flight = Flight(commandId: CommandId, sentAt: nat)

  datatype Event =
    | Sent(c: CommandId, at: nat)
    | Acknowledged(c: CommandId)
    | Outcome(c: CommandId)
    | Interrupted

  datatype Node = Node(db: Redis, running: bool, inFlight: Option<Flight>, log: seq<Event>)

  /** What becomes of a command that an iteration has read: the socket takes it or fails, or
      the connection is gone by the time the read comes back. */
  datatype Fate = Taken | Refused | Gone

  /** `LateClose` is an old connection that closes after a new one has opened; `StaleRead` a
      read of new messages that comes back to a loop whose connection is gone. */
  datatype Step =
    | Elapse(ms: nat)
    | Publish(c: CommandId, commandType: string, payload: string, gap: nat)
    | Loop(fate: Fate)
    | Arrive(ack: AckMessage)
    | Restart
    | Close
    | LateClose
    | StaleRead

  // ---------------------------------------------------------------- steps

  /** Pending commands first, new ones when none of those is due. */
  function NextF(s: Redis): (Redis, Option<Command>) {
    var (s1, r) := ReadF(s, Pending);
    if r.Some? then (s1, r) else ReadF(s1, New)
  }

  predicate Waiting(n: Node) {
    n.inFlight.Some? && n.db.now - n.inFlight.value.sentAt < ACK_TIMEOUT_MS
  }

  function TimeoutF(n: Node): Node {
    if n.inFlight.None? then n
    else n.(db := ScheduleRetryF(n.db, n.inFlight.value.commandId), inFlight := None)
  }

  function DispatchF(n: Node, fate: Fate): Node {
    var (db, next) := NextF(n.db);
    if fate.Gone? then n.(db := db, running := false)
    else
      match next
      case None => n.(db := db)
      case Some(command) =>
        var c := command.commandId;
        if fate.Taken? then n.(db := db, inFlight := Some(Flight(c, db.now)), log := n.log + [Sent(c, db.now)])
        else n.(db := ScheduleRetryF(db, c), running := false)
  }

  function LoopF(n: Node, fate: Fate): Node {
    if !n.running || Waiting(n) then n else DispatchF(TimeoutF(n), fate)
  }

  function ArriveF(n: Node, ack: AckMessage): Node {
    var (db, outcome) := AckF(n.db, ack);
    Node(db, n.running,
         if n.inFlight.Some? && n.inFlight.value.commandId == ack.commandId then None else n.inFlight,
         n.log + [Acknowledged(ack.commandId)] + if outcome.Terminal() then [Outcome(ack.commandId)] else [])
  }

  function NewCommand(s: Redis, c: CommandId, commandType: string, payload: string): Command {
    Command(c, commandType, payload, s.now, s.now + COMMAND_TTL_MS)
  }

  predicate CanPublish(s: Redis, c: CommandId, gap: nat) {
    c !in s.issued && s.lastId + 1 + gap <= MAX_STREAM_ID
  }

  function PublishF(s: Redis, c: CommandId, commandType: string, payload: string, gap: nat): Redis {
    if CanPublish(s, c, gap) then EnqueueF(s, s.lastId + 1 + gap, NewCommand(s, c, commandType, payload)) else s
  }

  function StepF(n: Node, step: Step): Node {
    match step
    case Elapse(ms) => n.(db := Apply(n.db, Tick(ms)))
    case Publish(c, commandType, payload, gap) => n.(db := PublishF(n.db, c, commandType, payload, gap))
    case Loop(fate) => LoopF(n, fate)
    case Arrive(ack) => ArriveF(n, ack)
    case Restart => n.(running := true, inFlight := None, log := n.log + [Interrupted])
    case Close => n.(running := false, inFlight := None, log := n.log + [Interrupted])
    case LateClose => n.(inFlight := None, log := n.log + [Interrupted])
    case StaleRead => n.(db := ReadF(n.db, New).0)
  }

  function RunF(n: Node, steps: seq<Step>): Node
    decreases |steps|
  {
    if steps == [] then n else RunF(StepF(n, steps[0]), steps[1..])
  }

  lemma {:induction false} RunAppend(n: Node, xs: seq<Step>, ys: seq<Step>)
    ensures RunF(n, xs + ys) == RunF(RunF(n, xs), ys)
    decreases |xs|
  {
    hide StepF;
    if xs == [] {
      assert xs + ys == ys;
    } else {
      assert (xs + ys)[1..] == xs[1..] + ys;
      RunAppend(StepF(n, xs[0]), xs[1..], ys);
    }
  }

  lemma OneStep(n: Node, step: Step)
    ensures RunF(n, [step]) == StepF(n, step)
  {
    assert [step][1..] == [];
  }

  // ---------------------------------------------------------------- the queue between steps

  ghost predicate IsQueued(s: Redis, c: CommandId)
    requires c in s.issued
  {
    Message(s.issued[c].streamId, Some(s.issued[c].command)) in s.stream
  }

  ghost predicate CommandOk(s: Redis, c: CommandId)
    requires c in s.issued
  {
    var command := s.issued[c].command;
    && s.issued[c].registered
    && command.ts <= s.now && command.expiresAt == command.ts + COMMAND_TTL_MS
    && (s.AckVisible(c) ==> !IsQueued(s, c))
  }

  ghost predicate Ordered(stream: seq<Message>) {
    && (forall m :: m in stream ==> m.body.Some?)
    && (forall i, j :: 0 <= i < j < |stream| && stream[i].body.Some? && stream[j].body.Some? ==>
          stream[i].body.value.expiresAt <= stream[j].body.value.expiresAt)
  }

  /** What holds of the queue whenever its operations do not overlap. */
  ghost predicate Quiet(s: Redis) {
    && Inv(s)
    && Ordered(s.stream)
    && (forall c :: c in s.issued ==> CommandOk(s, c))
    && (forall c :: c in s.retries ==> c in s.issued && s.issued[c].command.expiresAt <= s.retries[c].deadline)
    && (forall id :: id in s.pending ==> id <= s.delivered)
  }

  ghost predicate Live(s: Redis, c: CommandId)
    requires c in s.issued
  {
    IsQueued(s, c) && s.now < s.issued[c].command.expiresAt
  }

  /** How a queue operation treats one command: it is not queued again once it has left,
      its entry does not come back, and unless it is excepted nothing changes while it lives. */
  ghost predicate SparesOne(s: Redis, t: Redis, c: CommandId, except: set<CommandId>)
    requires c in s.issued
  {
    && c in t.issued && t.issued[c] == s.issued[c]
    && (IsQueued(t, c) ==> IsQueued(s, c))
    && (c in t.entries ==> c in s.entries)
    && (c in t.retries ==> c in s.retries || c in except)
    && (c !in except && s.now < s.issued[c].command.expiresAt ==>
        SameKeys(s, t, c) && (IsQueued(s, c) ==> IsQueued(t, c)))
  }

  ghost predicate Spares(s: Redis, t: Redis, except: set<CommandId>) {
    s.now == t.now && forall c :: c in s.issued ==> SparesOne(s, t, c, except)
  }

  lemma SparesTransitive(s: Redis, t: Redis, u: Redis, except: set<CommandId>)
    requires Spares(s, t, except) && Spares(t, u, except)
    ensures Spares(s, u, except)
  {
    forall c | c in s.issued ensures SparesOne(s, u, c, except) {
      assert SparesOne(s, t, c, except) && SparesOne(t, u, c, except);
    }
  }

  lemma SparesMore(s: Redis, t: Redis, except: set<CommandId>)
    requires Spares(s, t, {})
    ensures Spares(s, t, except)
  {
    forall c | c in s.issued ensures SparesOne(s, t, c, except) {
      assert SparesOne(s, t, c, {});
    }
  }

  lemma LiveHasEntry(s: Redis, c: CommandId)
    requires Quiet(s) && c in s.issued && Live(s, c)
    ensures s.EntryVisible(c) && !s.AckVisible(c) && s.entries[c].streamId == s.issued[c].streamId
  {
    assert IssueOk(s, c) && CommandOk(s, c);
  }

  lemma TickQuiet(s: Redis, ms: nat)
    requires Quiet(s)
    ensures Quiet(Apply(s, Tick(ms)))
  {
    ApplyKeepsInv(s, Tick(ms));
    forall c | c in s.issued ensures CommandOk(Apply(s, Tick(ms)), c) {
      assert CommandOk(s, c);
    }
  }

  lemma ScheduleQuiet(s: Redis, c: CommandId)
    requires Quiet(s) && c in s.issued
    ensures Quiet(ScheduleRetryF(s, c)) && Spares(s, ScheduleRetryF(s, c), {c})
    ensures ScheduleRetryF(s, c).stream == s.stream
    ensures var a := AttemptsOf(s, c) + 1; var t := ScheduleRetryF(s, c);
      c in t.retries && t.retries[c] == RetryRecord(a, s.now + RetryDelayMs(a), s.now + COMMAND_TTL_MS)
    ensures ScheduleRetryF(s, c).delivered == s.delivered && ScheduleRetryF(s, c).issued == s.issued
  {
    hide Inv, Ordered, RetryDelayMs;
    var t := ScheduleRetryF(s, c);
    var a := AttemptsOf(s, c) + 1;
    ApplyKeepsInv(s, SetRetry(c, a, s.now + RetryDelayMs(a)));
    assert t == s.(retries := s.retries[c := RetryRecord(a, s.now + RetryDelayMs(a), s.now + COMMAND_TTL_MS)]);
    hide Apply, ScheduleRetryF, AttemptsOf;
    assert CommandOk(s, c);
    forall d | d in s.issued ensures CommandOk(t, d) {
      assert CommandOk(s, d);
    }
  }

  // ---------------------------------------------------------------- cleanup

  lemma {:induction false} OrderedLive(stream: seq<Message>, now: nat)
    requires Ordered(stream)
    ensures ExpiryInOrder(stream, now)
    ensures forall m :: m in stream[|RemovablePrefix(stream, now)|..] ==> !Removable(m, now)
  {
    var n := |RemovablePrefix(stream, now)|;
    forall m | m in stream[n..] ensures !Removable(m, now) {
      var j :| n <= j < |stream| && stream[j] == m;
      assert stream[n] in stream && stream[j] in stream;
    }
    forall i, j | 0 <= i < j < |stream| && Removable(stream[j], now) ensures Removable(stream[i], now) {
      assert stream[i] in stream && stream[j] in stream;
    }
  }

  lemma NamedIsIssue(s: Redis, ms: seq<Message>, c: CommandId)
    requires Inv(s) && c in s.issued && (forall m :: m in ms ==> m in s.stream)
    ensures Names(ms, c) <==> Message(s.issued[c].streamId, Some(s.issued[c].command)) in ms
  {
    assert IssueOk(s, c);
    if Names(ms, c) {
      var m :| m in ms && m.body.Some? && m.body.value.commandId == c;
      StreamIssue(s, m);
    }
  }

  lemma PrefixGone(stream: seq<Message>, now: nat)
    requires Increasing(stream)
    ensures var p := RemovablePrefix(stream, now); forall m ::
      (m in stream <==> m in p || m in stream[|p|..]) && !(m in p && m in stream[|p|..])
  {
    var p := RemovablePrefix(stream, now);
    var rest := stream[|p|..];
    assert stream == p + rest;
    forall i, k | 0 <= i < |p| && 0 <= k < |rest| ensures p[i].id < rest[k].id {
      assert stream[i].id < stream[|p| + k].id;
    }
  }

  lemma CleanupOne(s: Redis, c: CommandId)
    requires Quiet(s) && c in s.issued
    ensures SparesOne(s, CleanupF(s), c, {}) && CommandOk(CleanupF(s), c)
  {
    hide Inv, Ordered, CleanupF, RemovablePrefix;
    CleanupEffect(s);
    var prefix := RemovablePrefix(s.stream, s.now);
    var t := CleanupF(s);
    InvIncreasing(s);
    PrefixGone(s.stream, s.now);
    NamedIsIssue(s, prefix, c);
    assert CommandOk(s, c);
    var mine := Message(s.issued[c].streamId, Some(s.issued[c].command));
    if Names(prefix, c) {
      assert mine in prefix && CleanedUp(t, mine) && Removable(mine, s.now);
    } else {
      assert SameKeys(s, t, c);
    }
  }

  lemma CleanupRetries(s: Redis)
    requires Quiet(s)
    ensures var t := CleanupF(s);
      forall c :: c in t.retries ==> c in t.issued && t.issued[c].command.expiresAt <= t.retries[c].deadline
  {
    CleanupEffect(s);
    var prefix := RemovablePrefix(s.stream, s.now);
    var t := CleanupF(s);
    hide Inv, CleanupF, RemovablePrefix;
    forall c | c in t.retries ensures c in s.retries && t.retries[c] == s.retries[c] {
      assert SameKeys(s, t, c) || Names(prefix, c);
    }
  }

  /** Between operations a cleanup leaves exactly the live commands, in their order. */
  lemma CleanupQuiet(s: Redis)
    requires Quiet(s)
    ensures Quiet(CleanupF(s)) && Spares(s, CleanupF(s), {})
    ensures CleanupF(s).stream == LiveOnly(s.stream, s.now)
    ensures CleanupF(s).delivered == s.delivered && CleanupF(s).lastId == s.lastId
    ensures CleanupF(s).issued == s.issued
    ensures forall m :: m in CleanupF(s).stream ==> !Removable(m, s.now)
  {
    hide Inv, LiveOnly, Ordered, CommandOk, SparesOne, CleanupF;
    var t := CleanupF(s);
    CleanupEffect(s);
    OrderedLive(s.stream, s.now);
    CleanupIsFilter(s);
    CleanupRetries(s);
    OrderedSlice(s.stream, |RemovablePrefix(s.stream, s.now)|);
    forall c | c in s.issued ensures SparesOne(s, t, c, {}) && CommandOk(t, c) {
      CleanupOne(s, c);
    }
    assert forall id :: id in t.pending ==> id in s.pending;
  }

  lemma OrderedSlice(stream: seq<Message>, n: nat)
    requires Ordered(stream) && n <= |stream|
    ensures Ordered(stream[n..])
  {
  }

  // ---------------------------------------------------------------- reading

  ghost predicate Deliverable(s: Redis, command: Command) {
    && command.commandId in s.issued && s.issued[command.commandId].command == command
    && Live(s, command.commandId) && !BackedOff(s, command.commandId)
  }

  lemma ReadNewQuiet(s: Redis)
    requires Quiet(s)
    ensures Quiet(Apply(s, XReadNew)) && Spares(s, Apply(s, XReadNew), {})
    ensures Apply(s, XReadNew).stream == s.stream && Apply(s, XReadNew).issued == s.issued
  {
    hide Inv, Ordered;
    var t := Apply(s, XReadNew);
    ApplyKeepsInv(s, XReadNew);
    assert t == s.(delivered := t.delivered, pending := t.pending) && s.delivered <= t.delivered;
    assert forall id :: id in t.pending ==> id <= t.delivered;
    hide Apply;
    forall c | c in s.issued ensures CommandOk(t, c) && SparesOne(s, t, c, {}) {
      assert CommandOk(s, c);
    }
  }

  lemma ScreenLive(s: Redis, m: Message)
    requires Quiet(s) && m in s.stream && !Removable(m, s.now)
    ensures ScreenF(s, m).0 == s && (ScreenF(s, m).1.Some? ==> Deliverable(s, ScreenF(s, m).1.value))
  {
    hide Inv, Apply;
    assert m.body.Some?;
    StreamIssue(s, m);
  }

  /** Whatever is read is live and due. */
  lemma ReadQuiet(s: Redis, mode: ReadMode)
    requires Quiet(s)
    ensures Quiet(ReadF(s, mode).0) && Spares(s, ReadF(s, mode).0, {}) && ReadF(s, mode).0.issued == s.issued
    ensures ReadF(s, mode).1.Some? ==> Deliverable(ReadF(s, mode).0, ReadF(s, mode).1.value)
  {
    hide Quiet, CleanupF, Spares, Deliverable, ScreenF, Removable, Apply;
    CleanupQuiet(s);
    var clean := CleanupF(s);
    ReadNewQuiet(clean);
    SparesSelf(clean);
    var t := if mode.Pending? then clean else Apply(clean, XReadNew);
    SparesTransitive(s, clean, t, {});
    SparesNow(s, t);
    var message := if mode.Pending? then PendingHead(clean) else FirstAfter(clean.stream, clean.delivered);
    if message.Some? { ScreenLive(t, message.value); }
  }

  lemma SparesNow(s: Redis, t: Redis)
    requires Spares(s, t, {})
    ensures t.now == s.now
  {
  }

  lemma SparesSelf(s: Redis)
    ensures Spares(s, s, {})
  {
  }

  lemma NextQuiet(s: Redis)
    requires Quiet(s)
    ensures Quiet(NextF(s).0) && Spares(s, NextF(s).0, {}) && NextF(s).0.issued == s.issued
    ensures NextF(s).1.Some? ==> Deliverable(NextF(s).0, NextF(s).1.value)
  {
    hide Quiet, Spares, Deliverable, ReadF;
    ReadQuiet(s, Pending);
    var (s1, r) := ReadF(s, Pending);
    if r.None? {
      ReadQuiet(s1, New);
      SparesTransitive(s, s1, ReadF(s1, New).0, {});
    }
  }

  // ---------------------------------------------------------------- acking and publishing

  lemma SettledOne(s: Redis, t: Redis, c: CommandId, ok: bool, d: CommandId)
    requires c in s.issued && d in s.issued && CommandOk(s, d)
    requires d != c ==> s.issued[d].streamId != s.issued[c].streamId
    requires t == s.(acks := s.acks[c := AckRecord(ok, s.now + ACK_TTL_MS)], entries := s.entries - {c},
                     retries := s.retries - {c},
                     stream := Without(s.stream, s.issued[c].streamId), pending := t.pending)
    ensures CommandOk(t, d) && SparesOne(s, t, d, {c})
  {
    hide Without, WithoutId;
  }

  lemma SettleQuiet(s: Redis, c: CommandId, ok: bool)
    requires Quiet(s) && c in s.issued
    ensures var t := DeleteF(Apply(s, SetAck(c, ok)), s.issued[c].streamId, c);
      Quiet(t) && Spares(s, t, {c}) && !IsQueued(t, c) && c !in t.entries && t.delivered == s.delivered
  {
    hide Inv, DeleteF, Apply, Ordered, CommandOk, SparesOne;
    var acked := Apply(s, SetAck(c, ok));
    var id := s.issued[c].streamId;
    var t := DeleteF(acked, id, c);
    ApplyKeepsInv(s, SetAck(c, ok));
    AckFields(s, c, ok);
    DeleteKeepsInv(acked, c);
    DeleteFields(acked, id, c);
    OrderedWithout(s.stream, id);
    IdsDistinct(s, c);
    forall d | d in s.issued ensures CommandOk(t, d) && SparesOne(s, t, d, {c}) { SettledOne(s, t, c, ok, d); }
  }

  lemma IdsDistinct(s: Redis, c: CommandId)
    requires Inv(s) && c in s.issued
    ensures forall d :: d in s.issued && d != c ==> s.issued[d].streamId != s.issued[c].streamId
  {
  }

  lemma OrderedRest(stream: seq<Message>)
    requires Ordered(stream) && stream != []
    ensures Ordered(stream[1..]) && stream[0].body.Some?
    ensures forall m :: m in stream[1..] && m.body.Some? ==> stream[0].body.value.expiresAt <= m.body.value.expiresAt
  {
  }

  lemma OrderedBefore(m: Message, rest: seq<Message>)
    requires Ordered(rest) && m.body.Some?
    requires forall n :: n in rest && n.body.Some? ==> m.body.value.expiresAt <= n.body.value.expiresAt
    ensures Ordered([m] + rest)
  {
    assert forall i :: 0 <= i < |rest| ==> rest[i] in rest;
  }

  lemma {:induction false} OrderedWithout(stream: seq<Message>, id: StreamId)
    requires Ordered(stream)
    ensures Ordered(Without(stream, id))
  {
    hide Ordered;
    if stream != [] {
      OrderedRest(stream);
      OrderedWithout(stream[1..], id);
      if stream[0].id != id { OrderedBefore(stream[0], Without(stream[1..], id)); }
    }
  }

  lemma AckQuiet(s: Redis, ack: AckMessage)
    requires Quiet(s)
    ensures var (t, outcome) := AckF(s, ack); var c := ack.commandId;
      && Quiet(t) && Spares(s, t, {c}) && t.delivered == s.delivered
      && (outcome.Terminal() ==> c in s.issued && s.EntryVisible(c) && !IsQueued(t, c) && c !in t.entries)
      && (outcome.Retry? ==> c in s.issued && t == ScheduleRetryF(s, c))
      && (!outcome.Terminal() && !outcome.Retry? ==> t == s && (c in s.issued ==> !Live(s, c)))
  {
    var c := ack.commandId;
    SparesSelf(s);
    SparesMore(s, s, {c});
    if c in s.issued && Live(s, c) { LiveHasEntry(s, c); }
    if !s.AckVisible(c) && s.EntryVisible(c) {
      EntryIssue(s, c);
      if ack.WantsRetry() { ScheduleQuiet(s, c); } else { SettleQuiet(s, c, ack.ok); }
    }
  }

  lemma AppendFacts(s: Redis, expiresAt: nat)
    requires Quiet(s) && expiresAt == s.now + COMMAND_TTL_MS
    ensures forall m :: m in s.stream && m.body.Some? ==> m.body.value.expiresAt <= expiresAt
    ensures forall d :: d in s.issued ==> s.issued[d].streamId <= s.lastId
    ensures forall d :: d in s.acks ==> d in s.issued
  {
    assert forall c :: c in s.issued ==> IssueOk(s, c);
  }

  lemma AppendQuiet(s: Redis, id: StreamId, command: Command)
    requires Quiet(s) && s.lastId < id <= MAX_STREAM_ID && command.commandId !in s.issued
    requires command.ts == s.now && command.expiresAt == s.now + COMMAND_TTL_MS
    ensures var t := Apply(Apply(s, XAdd(id, command)), SetEntry(command.commandId));
      && Quiet(t) && Spares(s, t, {}) && t.issued == s.issued[command.commandId := Issue(id, command, true)]
      && command.commandId !in t.retries && t.delivered == s.delivered
  {
    hide Inv;
    var c := command.commandId;
    var added := Apply(s, XAdd(id, command));
    var t := Apply(added, SetEntry(c));
    ApplyKeepsInv(s, XAdd(id, command));
    ApplyKeepsInv(added, SetEntry(c));
    AppendFacts(s, command.expiresAt);
    assert t == s.(stream := s.stream + [Message(id, Some(command))], lastId := id,
                   entries := s.entries[c := EntryRecord(id, command, s.now + COMMAND_TTL_MS)],
                   issued := s.issued[c := Issue(id, command, true)]);
    hide Apply;
    forall d | d in t.issued ensures CommandOk(t, d) && (d in s.issued ==> SparesOne(s, t, d, {})) {
      if d in s.issued { assert CommandOk(s, d); }
    }
  }

  lemma PublishQuiet(s: Redis, c: CommandId, commandType: string, payload: string, gap: nat)
    requires Quiet(s)
    ensures var t := PublishF(s, c, commandType, payload, gap);
      && Quiet(t) && Spares(s, t, {}) && t.delivered == s.delivered
      && (forall d :: d in t.issued && d !in s.issued ==>
            d == c && t.issued[d].command == NewCommand(s, c, commandType, payload)
            && s.lastId < t.issued[d].streamId && d !in t.retries)
  {
    hide Inv, Quiet, Apply, CleanupF;
    if CanPublish(s, c, gap) {
      var command := NewCommand(s, c, commandType, payload);
      AppendQuiet(s, s.lastId + 1 + gap, command);
      var t := Apply(Apply(s, XAdd(s.lastId + 1 + gap, command)), SetEntry(c));
      CleanupQuiet(t);
      SparesTransitive(s, t, CleanupF(t), {});
      assert SparesOne(t, CleanupF(t), c, {});
    } else {
      SparesSelf(s);
    }
  }
}

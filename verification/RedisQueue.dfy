/**
 The part of Redis that one device's command queue lives in: the stream with its
 consumer group, and the entry, terminal-ack and retry keys with their expiry times.
 A `Write` is one atomic Redis command (or the passing of time); `Apply` is its effect.
 A run is any interleaving of writes, so a node that stops between two commands, or
 two nodes that work on the same device at once, are runs like any other.
 */
module RedisQueue {
  import opened Wrappers

  type CommandId = string
  type StreamId = nat

  const COMMAND_TTL_MS: nat := 15 * 60 * 1000
  const ACK_TTL_MS: nat := 24 * 60 * 60 * 1000
  // A stream id is a pair of 64-bit numbers; XADD is refused beyond the last one.
  const MAX_STREAM_ID: nat := 0xFFFF_FFFF_FFFF_FFFF_FFFF_FFFF_FFFF_FFFF

  datatype Command = Command(
    commandId: CommandId, commandType: string, payload: string, ts: nat, expiresAt: nat)

  /** A stream message; its body is None when parseCommandMessage rejects its fields. */
  datatype Message = Message(id: StreamId, body: Option<Command>)

  datatype EntryRecord = EntryRecord(streamId: StreamId, command: Command, deadline: nat)
  datatype AckRecord = AckRecord(ok: bool, deadline: nat)
  datatype RetryRecord = RetryRecord(attempts: nat, availableAt: nat, deadline: nat)

  /** What is remembered of a command that was ever added to the stream. `registered`
      says that its entry record has been written. This is history, not Redis data. */
  datatype Issue = Issue(streamId: StreamId, command: Command, registered: bool)

  datatype Redis = Redis(
    now: nat,
    stream: seq<Message>,
    lastId: StreamId,
    delivered: StreamId,
    pending: seq<StreamId>,
    entries: map<CommandId, EntryRecord>,
    acks: map<CommandId, AckRecord>,
    retries: map<CommandId, RetryRecord>,
    issued: map<CommandId, Issue>)
  {
    predicate AckVisible(c: CommandId) {
      c in acks && now < acks[c].deadline
    }

    predicate EntryVisible(c: CommandId) {
      c in entries && now < entries[c].deadline
    }

    predicate RetryVisible(c: CommandId) {
      c in retries && now < retries[c].deadline
    }

    /** The command has a terminal ack record, or its lifetime is over. */
    predicate Terminated(c: CommandId)
      requires c in issued
    {
      AckVisible(c) || issued[c].command.expiresAt <= now
    }

    /** Removing this id from the stream loses no live command. */
    ghost predicate Discardable(id: StreamId) {
      id <= lastId && forall c :: c in issued && issued[c].streamId == id ==> Terminated(c)
    }

    /** No later ack message can be answered with this command any more. */
    predicate Settled(c: CommandId) {
      c in issued && issued[c].registered &&
      (c !in entries || entries[c].deadline <= now || (c in acks && entries[c].deadline <= acks[c].deadline))
    }

    function Measure(): int {
      |stream| + (MAX_STREAM_ID - lastId)
    }
  }

  const EMPTY: Redis := Redis(0, [], 0, 0, [], map[], map[], map[], map[])

  // ---------------------------------------------------------------- stream helpers

  function Without(stream: seq<Message>, id: StreamId): (r: seq<Message>)
    ensures forall m :: m in r <==> m in stream && m.id != id
    ensures |r| <= |stream|
    ensures |r| == |stream| ==> r == stream
  {
    if stream == [] then []
    else if stream[0].id == id then Without(stream[1..], id)
    else [stream[0]] + Without(stream[1..], id)
  }

  function WithoutId(ids: seq<StreamId>, id: StreamId): (r: seq<StreamId>)
    ensures forall i :: i in r <==> i in ids && i != id
  {
    if ids == [] then []
    else if ids[0] == id then WithoutId(ids[1..], id)
    else [ids[0]] + WithoutId(ids[1..], id)
  }

  /** The first message after `from`, which is what XREADGROUP ... > COUNT 1 delivers. */
  function FirstAfter(stream: seq<Message>, from: StreamId): (r: Option<Message>)
    ensures r.Some? ==> r.value in stream && from < r.value.id
    ensures r.None? ==> forall m :: m in stream ==> m.id <= from
  {
    if stream == [] then None
    else if from < stream[0].id then Some(stream[0])
    else FirstAfter(stream[1..], from)
  }

  function Lookup(stream: seq<Message>, id: StreamId): (r: Option<Message>)
    ensures r.Some? ==> r.value in stream && r.value.id == id
    ensures r.None? ==> forall m :: m in stream ==> m.id != id
  {
    if stream == [] then None
    else if stream[0].id == id then Some(stream[0])
    else Lookup(stream[1..], id)
  }

  /** XREADGROUP ... 0 COUNT 1: the oldest pending id, with nothing to show for it when
      its message has been deleted from the stream. */
  function PendingHead(s: Redis): Option<Message> {
    if s.pending == [] then None else Lookup(s.stream, s.pending[0])
  }

  // ---------------------------------------------------------------- writes

  datatype Write =
    | Tick(elapsed: nat)
    | XAdd(id: StreamId, command: Command)
    | XAddForeign(id: StreamId)
    | XReadNew
    | XAck(id: StreamId)
    | XDel(id: StreamId)
    | SetEntry(c: CommandId)
    | DelEntry(c: CommandId)
    | SetAck(c: CommandId, ok: bool)
    | SetRetry(c: CommandId, attempts: nat, availableAt: nat)
    | DelRetry(c: CommandId)

  /** When the service may issue the write; the code of device-commands is shown to
      respect this at every call. */
  ghost predicate Enabled(s: Redis, w: Write) {
    match w
    case XAdd(id, command) =>
      s.lastId < id <= MAX_STREAM_ID && command.commandId !in s.issued
      && command.expiresAt <= s.now + COMMAND_TTL_MS
    case XAddForeign(id) => s.lastId < id <= MAX_STREAM_ID
    case XAck(id) => s.Discardable(id)
    case XDel(id) => s.Discardable(id)
    case SetEntry(c) => c in s.issued && !s.issued[c].registered
    case DelEntry(c) => c in s.issued && s.Terminated(c)
    case SetAck(c, _) => c in s.issued
    case _ => true
  }

  function Apply(s: Redis, w: Write): Redis {
    match w
    case Tick(elapsed) => s.(now := s.now + elapsed)
    case XAdd(id, command) =>
      s.(stream := s.stream + [Message(id, Some(command))], lastId := id,
      issued := s.issued[command.commandId := Issue(id, command, false)])
    case XAddForeign(id) => s.(stream := s.stream + [Message(id, None)], lastId := id)
    case XReadNew =>
      (match FirstAfter(s.stream, s.delivered)
       case None => s
       case Some(m) => s.(delivered := m.id, pending := s.pending + [m.id]))
    case XAck(id) => s.(pending := WithoutId(s.pending, id))
    case XDel(id) => s.(stream := Without(s.stream, id))
    case SetEntry(c) =>
      if c in s.issued then
        var i := s.issued[c];
        s.(entries := s.entries[c := EntryRecord(i.streamId, i.command, s.now + COMMAND_TTL_MS)],
        issued := s.issued[c := i.(registered := true)])
      else s
    case DelEntry(c) => s.(entries := s.entries - {c})
    case SetAck(c, ok) => s.(acks := s.acks[c := AckRecord(ok, s.now + ACK_TTL_MS)])
    case SetRetry(c, attempts, availableAt) =>
      s.(retries := s.retries[c := RetryRecord(attempts, availableAt, s.now + COMMAND_TTL_MS)])
    case DelRetry(c) => s.(retries := s.retries - {c})
  }

  // ---------------------------------------------------------------- invariant

  ghost predicate Increasing(stream: seq<Message>) {
    forall i, j :: 0 <= i < j < |stream| ==> stream[i].id < stream[j].id
  }

  ghost predicate IssueOk(s: Redis, c: CommandId)
    requires c in s.issued
  {
    var i := s.issued[c];
    && i.command.commandId == c
    && i.streamId <= s.lastId
    && i.command.expiresAt <= s.now + COMMAND_TTL_MS
    && (c in s.entries ==> i.registered)
    && (!s.Terminated(c) ==>
          && Message(i.streamId, Some(i.command)) in s.stream
          && (i.registered ==> c in s.entries))
  }

  ghost predicate EntriesOk(s: Redis) {
    forall c :: c in s.entries ==>
      && c in s.issued
      && s.entries[c].streamId == s.issued[c].streamId
      && s.entries[c].command == s.issued[c].command
      && s.issued[c].command.expiresAt <= s.entries[c].deadline <= s.now + COMMAND_TTL_MS
  }

  ghost predicate AcksOk(s: Redis) {
    forall c :: c in s.acks ==> c in s.issued && s.issued[c].command.expiresAt <= s.acks[c].deadline
  }

  ghost predicate RecordsOk(s: Redis) {
    EntriesOk(s) && AcksOk(s)
  }

  ghost predicate StreamOk(s: Redis) {
    && Increasing(s.stream)
    && s.delivered <= s.lastId <= MAX_STREAM_ID
    && (forall m :: m in s.stream ==> m.id <= s.lastId)
    && (forall m :: m in s.stream && m.body.Some? ==>
          && m.body.value.commandId in s.issued
          && s.issued[m.body.value.commandId].streamId == m.id
          && s.issued[m.body.value.commandId].command == m.body.value)
  }

  ghost predicate Inv(s: Redis) {
    && StreamOk(s)
    && RecordsOk(s)
    && (forall c :: c in s.issued ==> IssueOk(s, c))
    && (forall c, d :: c in s.issued && d in s.issued && s.issued[c].streamId == s.issued[d].streamId ==> c == d)
  }

  /** The delivery promise: a command whose enqueue got as far as its entry record, and
      that has not expired, has a terminal ack or is still queued under a live,
      matching entry record. */
  ghost predicate NothingLost(s: Redis) {
    forall c :: c in s.issued && s.issued[c].registered && s.now < s.issued[c].command.expiresAt ==>
      || s.AckVisible(c)
      || (&& Message(s.issued[c].streamId, Some(s.issued[c].command)) in s.stream
          && s.EntryVisible(c)
          && s.entries[c].streamId == s.issued[c].streamId
          && s.entries[c].command == s.issued[c].command)
  }

  lemma InvNothingLost(s: Redis)
    requires Inv(s)
    ensures NothingLost(s)
  {
    forall c | c in s.issued && s.issued[c].registered && s.now < s.issued[c].command.expiresAt && !s.AckVisible(c)
      ensures Message(s.issued[c].streamId, Some(s.issued[c].command)) in s.stream && s.EntryVisible(c)
    {
      assert IssueOk(s, c) && !s.Terminated(c);
    }
  }

  // ---------------------------------------------------------------- what stays true

  ghost predicate IssueEvolves(s: Redis, t: Redis, own: set<CommandId>, c: CommandId)
    requires c in s.issued
  {
    && c in t.issued
    && t.issued[c].streamId == s.issued[c].streamId
    && t.issued[c].command == s.issued[c].command
    && (s.issued[c].registered ==> t.issued[c].registered)
    && (c in own ==> s.issued[c].registered == t.issued[c].registered)
    && (s.Terminated(c) ==> t.Terminated(c))
    && AnswerEvolves(s, t, c)
  }

  /** An entry that is gone does not come back, and a settled command stays settled. */
  ghost predicate AnswerEvolves(s: Redis, t: Redis, c: CommandId)
    requires c in s.issued
  {
    && (s.issued[c].registered && !s.EntryVisible(c) ==> !t.EntryVisible(c))
    && (s.Settled(c) ==> t.Settled(c))
  }

  /** What every other operation leaves intact while one operation waits. `own` are the
      command ids that only the waiting operation adds and registers. */
  ghost predicate Evolves(s: Redis, t: Redis, own: set<CommandId>) {
    && s.now <= t.now
    && s.lastId <= t.lastId
    && t.Measure() <= s.Measure()
    && (forall c :: c in s.issued ==> IssueEvolves(s, t, own, c))
    && (forall c :: c in own && c !in s.issued ==> c !in t.issued)
    && (forall c :: c in t.issued && c !in s.issued ==> s.lastId < t.issued[c].streamId)
    && (forall m :: m in t.stream && m.id <= s.lastId ==> m in s.stream)
    && (forall m :: m in s.stream && m !in t.stream ==> t.Measure() < s.Measure())
  }

  ghost predicate Foreign(w: Write, own: set<CommandId>) {
    && (w.XAdd? ==> w.command.commandId !in own)
    && (w.SetEntry? ==> w.c !in own)
  }

  lemma IncreasingRest(stream: seq<Message>)
    requires Increasing(stream) && stream != []
    ensures Increasing(stream[1..]) && forall m :: m in stream[1..] ==> stream[0].id < m.id
  {
  }

  lemma IncreasingBefore(m: Message, rest: seq<Message>)
    requires Increasing(rest) && forall n :: n in rest ==> m.id < n.id
    ensures Increasing([m] + rest)
  {
  }

  lemma {:induction false} WithoutIncreasing(stream: seq<Message>, id: StreamId)
    requires Increasing(stream)
    ensures Increasing(Without(stream, id))
  {
    hide Increasing;
    if stream != [] {
      IncreasingRest(stream);
      WithoutIncreasing(stream[1..], id);
      if stream[0].id != id { IncreasingBefore(stream[0], Without(stream[1..], id)); }
    }
  }

  lemma ApplyKeepsStream(s: Redis, w: Write)
    requires Inv(s) && Enabled(s, w)
    ensures StreamOk(Apply(s, w))
  {
    hide Increasing, Without, WithoutId, FirstAfter, RecordsOk, IssueOk;
    ApplyKeepsOrder(s, w);
  }

  lemma ApplyKeepsOrder(s: Redis, w: Write)
    requires Inv(s) && Enabled(s, w)
    ensures Increasing(Apply(s, w).stream)
  {
    hide Increasing, Without, WithoutId, FirstAfter, RecordsOk, IssueOk;
    match w
    case XDel(id) => WithoutIncreasing(s.stream, id);
    case XAdd(id, command) => IncreasingAfter(s.stream, Message(id, Some(command)));
    case XAddForeign(id) => IncreasingAfter(s.stream, Message(id, None));
    case _ =>
  }

  lemma IncreasingAfter(stream: seq<Message>, m: Message)
    requires Increasing(stream) && forall n :: n in stream ==> n.id < m.id
    ensures Increasing(stream + [m])
  {
    assert forall i :: 0 <= i < |stream| ==> stream[i] in stream;
  }

  lemma ApplyKeepsIssue(s: Redis, w: Write, c: CommandId)
    requires Inv(s) && Enabled(s, w) && c in Apply(s, w).issued
    ensures IssueOk(Apply(s, w), c)
  {
    hide FirstAfter, Without, WithoutId, Increasing;
    if c in s.issued {
      assert IssueOk(s, c);
      assert s.Terminated(c) ==> Apply(s, w).Terminated(c);
    }
  }

  lemma ApplyKeepsEntries(s: Redis, w: Write)
    requires Inv(s) && Enabled(s, w)
    ensures EntriesOk(Apply(s, w))
  {
    hide StreamOk, AcksOk, FirstAfter, Without, WithoutId;
    assert w.SetEntry? ==> IssueOk(s, w.c);
  }

  lemma ApplyKeepsAcks(s: Redis, w: Write)
    requires Inv(s) && Enabled(s, w)
    ensures AcksOk(Apply(s, w))
  {
    hide StreamOk, EntriesOk, FirstAfter, Without, WithoutId;
    assert w.SetAck? ==> IssueOk(s, w.c);
  }

  lemma ApplyKeepsInv(s: Redis, w: Write)
    requires Inv(s) && Enabled(s, w)
    ensures Inv(Apply(s, w))
  {
    ApplyKeepsStream(s, w);
    ApplyKeepsEntries(s, w);
    ApplyKeepsAcks(s, w);
    forall c | c in Apply(s, w).issued ensures IssueOk(Apply(s, w), c) {
      ApplyKeepsIssue(s, w, c);
    }
    assert forall c :: c in s.issued ==> IssueOk(s, c);
    hide StreamOk, EntriesOk, AcksOk;
  }

  lemma ApplyEvolvesAnswer(s: Redis, w: Write, c: CommandId)
    requires Inv(s) && Enabled(s, w) && c in s.issued
    ensures AnswerEvolves(s, Apply(s, w), c)
  {
    hide FirstAfter, Without, WithoutId, StreamOk;
    assert IssueOk(s, c);
  }

  lemma ApplyEvolvesIssue(s: Redis, w: Write, own: set<CommandId>, c: CommandId)
    requires Inv(s) && Enabled(s, w) && Foreign(w, own) && c in s.issued
    ensures IssueEvolves(s, Apply(s, w), own, c)
  {
    hide FirstAfter, Without, WithoutId, StreamOk, AnswerEvolves;
    ApplyEvolvesAnswer(s, w, c);
    assert IssueOk(s, c);
  }

  lemma ApplyEvolves(s: Redis, w: Write, own: set<CommandId>)
    requires Inv(s) && Enabled(s, w) && Foreign(w, own)
    ensures Evolves(s, Apply(s, w), own)
  {
    forall c | c in s.issued ensures IssueEvolves(s, Apply(s, w), own, c) {
      ApplyEvolvesIssue(s, w, own, c);
    }
  }

  lemma EvolvesTransitive(s: Redis, t: Redis, u: Redis, own: set<CommandId>)
    requires Evolves(s, t, own) && Evolves(t, u, own)
    ensures Evolves(s, u, own)
  {
  }

  /** Whatever is safe to discard stays so, whatever else happens. */
  lemma DiscardableStable(s: Redis, t: Redis, own: set<CommandId>, id: StreamId)
    requires Evolves(s, t, own) && s.Discardable(id)
    ensures t.Discardable(id)
  {
  }

  // ---------------------------------------------------------------- runs

  ghost predicate Runs(s: Redis, ws: seq<Write>, t: Redis, own: set<CommandId>)
    decreases |ws|
  {
    if ws == [] then s == t
    else Enabled(s, ws[0]) && Foreign(ws[0], own) && Runs(Apply(s, ws[0]), ws[1..], t, own)
  }

  /** The state after these writes. */
  function Reached(s: Redis, ws: seq<Write>): Redis {
    if ws == [] then s else Apply(Reached(s, ws[..|ws| - 1]), ws[|ws| - 1])
  }

  lemma {:induction false} RunsReach(s: Redis, ws: seq<Write>, t: Redis, own: set<CommandId>)
    requires Runs(s, ws, t, own)
    ensures t == Reached(s, ws)
    decreases |ws|
  {
    hide Apply;
    if ws != [] {
      RunsReach(Apply(s, ws[0]), ws[1..], t, own);
      ReachedFront(s, ws);
    }
  }

  lemma {:induction false} ReachedFront(s: Redis, ws: seq<Write>)
    requires ws != []
    ensures Reached(s, ws) == Reached(Apply(s, ws[0]), ws[1..])
    decreases |ws|
  {
    hide Apply;
    var init := ws[..|ws| - 1];
    if init == [] {
      assert Reached(s, init) == s;
      assert ws[1..] == [];
    } else {
      ReachedFront(s, init);
      assert init[1..] == ws[1..][..|ws| - 2];
    }
  }

  ghost predicate Reaches(s: Redis, t: Redis, own: set<CommandId>) {
    exists ws :: Runs(s, ws, t, own)
  }

  lemma ReachesSelf(s: Redis, own: set<CommandId>)
    ensures Reaches(s, s, own)
  {
    assert Runs(s, [], s, own);
  }

  lemma {:induction false} RunsThen(s: Redis, ws: seq<Write>, t: Redis, w: Write, own: set<CommandId>)
    requires Runs(s, ws, t, own) && Enabled(t, w) && Foreign(w, own)
    ensures Runs(s, ws + [w], Apply(t, w), own)
    decreases |ws|
  {
    if ws == [] {
      assert (ws + [w])[1..] == [];
    } else {
      RunsThen(Apply(s, ws[0]), ws[1..], t, w, own);
      assert (ws + [w])[1..] == ws[1..] + [w];
    }
  }

  /** Every interleaving keeps the invariant and everything a waiting operation relies on. */
  lemma {:induction false} RunsKeepInv(s: Redis, ws: seq<Write>, t: Redis, own: set<CommandId>)
    requires Inv(s) && Runs(s, ws, t, own)
    ensures Inv(t) && Evolves(s, t, own)
    decreases |ws|
  {
    if ws != [] {
      ApplyKeepsInv(s, ws[0]);
      ApplyEvolves(s, ws[0], own);
      RunsKeepInv(Apply(s, ws[0]), ws[1..], t, own);
      EvolvesTransitive(s, Apply(s, ws[0]), t, own);
    }
  }

  /** No queued command is lost: from an empty queue, in every state of every run, also
      the states between the individual writes of one operation. */
  lemma NoQueuedCommandIsLost(ws: seq<Write>, t: Redis)
    requires Runs(EMPTY, ws, t, {})
    ensures NothingLost(t)
  {
    RunsKeepInv(EMPTY, ws, t, {});
    InvNothingLost(t);
  }
}

/**
 The queue operations of one device. Every `await` of the source is a call of `Yield`:
 any number of writes by other operations may come in between, unless the object is
 `exclusive`, which stands for an operation that runs atomically. The same bodies are
 thus proved twice over: against all interference, and against an exact specification.
 */
module DeviceCommands {
  import opened Wrappers
  import opened RedisQueue

  const RETRY_BASE_DELAY_MS: nat := 2_000
  const RETRY_MAX_DELAY_MS: nat := 30_000
  const CLEANUP_BATCH_SIZE: nat := 50

  datatype ErrorCode =
    | UnknownCommand | InvalidPayload | PolicyDenied | ApprovalExpired | DeniedByUser | Canceled | Unsupported
    | TempUnavailable | DeviceBusy | RateLimitedLocal | ExecutionFailedTransient | NetworkError | InternalError

  predicate RetryableErrorCode(code: ErrorCode) {
    code in {TempUnavailable, DeviceBusy, RateLimitedLocal, ExecutionFailedTransient, NetworkError, InternalError}
  }

  datatype AckMessage = AckMessage(commandId: CommandId, ok: bool, errorCode: ErrorCode, retryable: Option<bool>)
  {
    predicate WantsRetry() {
      !ok && if retryable.Some? then retryable.value else RetryableErrorCode(errorCode)
    }
  }

  /** The device asks for the command once more: it says so itself, or if it says nothing, its
      error is one of those that pass. */
  predicate AsksAgain(ack: AckMessage) {
    && !ack.ok
    && ack.retryable != Some(false)
    && (|| ack.retryable == Some(true)
        || ack.errorCode.TempUnavailable? || ack.errorCode.DeviceBusy? || ack.errorCode.RateLimitedLocal?
        || ack.errorCode.ExecutionFailedTransient? || ack.errorCode.NetworkError? || ack.errorCode.InternalError?)
  }

  datatype AckOutcome =
    | Acked(command: Option<Command>)
    | Retry(retryAt: nat, retried: Command)
    | Ignored
  {
    predicate Terminal() { Acked? && command.Some? }
  }

  datatype ReadMode = Pending | New

  // ---------------------------------------------------------------- backoff

  function Pow2(n: nat): nat {
    if n == 0 then 1 else 2 * Pow2(n - 1)
  }

  function RetryDelayMs(attempts: nat): nat {
    var delay := RETRY_BASE_DELAY_MS * Pow2(if attempts == 0 then 0 else attempts - 1);
    if delay < RETRY_MAX_DELAY_MS then delay else RETRY_MAX_DELAY_MS
  }

  /** Doubling from two seconds, and half a minute from the fifth attempt on. */
  lemma {:induction false} BackoffDelays(attempts: nat)
    ensures attempts <= 1 ==> RetryDelayMs(attempts) == 2_000
    ensures attempts == 2 ==> RetryDelayMs(attempts) == 4_000
    ensures attempts == 3 ==> RetryDelayMs(attempts) == 8_000
    ensures attempts == 4 ==> RetryDelayMs(attempts) == 16_000
    ensures attempts >= 5 ==> RetryDelayMs(attempts) == 30_000
    decreases attempts
  {
    if attempts <= 5 {
      assert Pow2(0) == 1 && Pow2(1) == 2 && Pow2(2) == 4 && Pow2(3) == 8 && Pow2(4) == 16;
    } else {
      BackoffDelays(attempts - 1);
    }
  }

  // ---------------------------------------------------------------- atomic meaning

  function DiscardF(s: Redis, id: StreamId): Redis {
    Apply(Apply(s, XAck(id)), XDel(id))
  }

  function DeleteF(s: Redis, id: StreamId, c: CommandId): Redis {
    Apply(Apply(DiscardF(s, id), DelEntry(c)), DelRetry(c))
  }

  /** Nothing live is lost by dropping this message: malformed, or past its lifetime. */
  predicate Removable(m: Message, now: nat) {
    m.body.None? || m.body.value.expiresAt <= now
  }

  function RemoveF(s: Redis, m: Message): Redis {
    if m.body.None? then DiscardF(s, m.id)
    else DeleteF(Apply(s, SetAck(m.body.value.commandId, false)), m.id, m.body.value.commandId)
  }

  function RemoveAllF(s: Redis, ms: seq<Message>): Redis
    decreases |ms|
  {
    if ms == [] then s else RemoveAllF(RemoveF(s, ms[0]), ms[1..])
  }

  /** The removable messages before the first one that is not. */
  function RemovablePrefix(stream: seq<Message>, now: nat): (r: seq<Message>)
    ensures r <= stream
    ensures forall m :: m in r ==> Removable(m, now)
    ensures |r| < |stream| ==> !Removable(stream[|r|], now)
  {
    if stream == [] || !Removable(stream[0], now) then []
    else [stream[0]] + RemovablePrefix(stream[1..], now)
  }

  function CleanupF(s: Redis): Redis {
    RemoveAllF(s, RemovablePrefix(s.stream, s.now))
  }

  function AttemptsOf(s: Redis, c: CommandId): nat {
    if s.RetryVisible(c) then s.retries[c].attempts else 0
  }

  function ScheduleRetryF(s: Redis, c: CommandId): Redis {
    var attempts := AttemptsOf(s, c) + 1;
    Apply(s, SetRetry(c, attempts, s.now + RetryDelayMs(attempts)))
  }

  function AckF(s: Redis, ack: AckMessage): (Redis, AckOutcome) {
    var c := ack.commandId;
    if s.AckVisible(c) then (s, Acked(None))
    else if !s.EntryVisible(c) then (s, Ignored)
    else if ack.WantsRetry() then
      var t := ScheduleRetryF(s, c);
      (t, Retry(s.now + RetryDelayMs(AttemptsOf(s, c) + 1), s.entries[c].command))
    else
      (DeleteF(Apply(s, SetAck(c, ack.ok)), s.entries[c].streamId, c), Acked(Some(s.entries[c].command)))
  }

  /** Waiting for its backoff time. */
  predicate BackedOff(s: Redis, c: CommandId) {
    s.RetryVisible(c) && s.now < s.retries[c].availableAt
  }

  /** What happens to the message that was read: dropped, left waiting, or sent. */
  function ScreenF(s: Redis, m: Message): (Redis, Option<Command>) {
    if m.body.None? then (DiscardF(s, m.id), None)
    else if m.body.value.expiresAt <= s.now then (DeleteF(s, m.id, m.body.value.commandId), None)
    else if BackedOff(s, m.body.value.commandId) then (s, None)
    else (s, Some(m.body.value))
  }

  function ReadF(s: Redis, mode: ReadMode): (Redis, Option<Command>) {
    var clean := CleanupF(s);
    var message := if mode.Pending? then PendingHead(clean) else FirstAfter(clean.stream, clean.delivered);
    var t := if mode.Pending? then clean else Apply(clean, XReadNew);
    if message.None? then (t, None) else ScreenF(t, message.value)
  }

  function EnqueueF(s: Redis, id: StreamId, command: Command): Redis {
    CleanupF(Apply(Apply(s, XAdd(id, command)), SetEntry(command.commandId)))
  }

  // ---------------------------------------------------------------- steady guards

  /** Writes whose guard, once true, no other operation can make false again. */
  ghost predicate Standing(s: Redis, w: Write) {
    !w.XAdd? && !w.XAddForeign? && !w.SetEntry? && Enabled(s, w)
  }

  lemma StandingStable(s: Redis, t: Redis, own: set<CommandId>, w: Write)
    requires Standing(s, w) && Evolves(s, t, own)
    ensures Standing(t, w)
  {
    if w.XAck? || w.XDel? { DiscardableStable(s, t, own, w.id); }
  }

  /** A malformed message stands for no live command. */
  lemma MalformedDiscardable(s: Redis, m: Message)
    requires Inv(s) && m in s.stream && m.body.None?
    ensures s.Discardable(m.id)
  {
    forall c | c in s.issued && s.issued[c].streamId == m.id ensures s.Terminated(c) {
      assert IssueOk(s, c);
    }
  }

  lemma TerminatedDiscardable(s: Redis, c: CommandId)
    requires Inv(s) && c in s.issued && s.Terminated(c)
    ensures s.Discardable(s.issued[c].streamId)
  {
    assert IssueOk(s, c);
  }

  lemma StreamIssue(s: Redis, m: Message)
    requires Inv(s) && m in s.stream && m.body.Some?
    ensures m.body.value.commandId in s.issued
    ensures s.issued[m.body.value.commandId].streamId == m.id
    ensures s.issued[m.body.value.commandId].command == m.body.value
  {
  }

  lemma EntryIssue(s: Redis, c: CommandId)
    requires Inv(s) && c in s.entries
    ensures c in s.issued && s.issued[c].registered
    ensures s.issued[c].streamId == s.entries[c].streamId && s.issued[c].command == s.entries[c].command
  {
    assert c in s.issued && IssueOk(s, c);
  }

  lemma EvolvesIssue(s: Redis, t: Redis, own: set<CommandId>, c: CommandId)
    requires Evolves(s, t, own)
    ensures s.now <= t.now
    ensures c in s.issued ==> IssueEvolves(s, t, own, c)
    ensures c in own && c !in s.issued ==> c !in t.issued
  {
  }

  lemma EvolvesSelf(s: Redis)
    ensures Evolves(s, s, {})
  {
  }

  lemma FreshStays(s: Redis, t: Redis, c: CommandId)
    requires Evolves(s, t, {c}) && c !in s.issued
    ensures c !in t.issued && s.now <= t.now
  {
  }

  lemma IssueStays(s: Redis, t: Redis, c: CommandId)
    requires Evolves(s, t, {}) && c in s.issued
    ensures c in t.issued && t.issued[c].command == s.issued[c].command && t.issued[c].streamId == s.issued[c].streamId
    ensures s.issued[c].registered ==> t.issued[c].registered
  {
    assert IssueEvolves(s, t, {}, c);
  }

  /** Not touching one's own commands is only a stronger promise. */
  lemma OwnSelf(s: Redis, t: Redis, own: set<CommandId>)
    ensures Evolves(s, s, own)
    ensures Evolves(s, t, own) ==> Evolves(s, t, {})
  {
    assert Evolves(s, t, own) ==> forall c :: c in s.issued && IssueEvolves(s, t, own, c) ==> IssueEvolves(s, t, {}, c);
  }

  lemma WithoutAbsent(stream: seq<Message>, id: StreamId)
    requires forall m :: m in stream ==> m.id != id
    ensures Without(stream, id) == stream
  {
  }

  /** All that a deletion changes. */
  lemma DeleteFields(s: Redis, id: StreamId, c: CommandId)
    ensures DeleteF(s, id, c) == s.(stream := Without(s.stream, id), pending := WithoutId(s.pending, id),
                                    entries := s.entries - {c}, retries := s.retries - {c})
  {
    hide Without, WithoutId;
  }

  lemma AckFields(s: Redis, c: CommandId, ok: bool)
    ensures Apply(s, SetAck(c, ok)) == s.(acks := s.acks[c := AckRecord(ok, s.now + ACK_TTL_MS)])
  {
  }

  lemma DiscardFields(s: Redis, id: StreamId)
    ensures DiscardF(s, id) == s.(stream := Without(s.stream, id), pending := WithoutId(s.pending, id))
  {
    hide Without, WithoutId;
  }

  lemma RemoveFields(s: Redis, m: Message)
    ensures RemoveF(s, m).stream == Without(s.stream, m.id) && RemoveF(s, m).now == s.now
  {
    hide Without, WithoutId, DeleteF, DiscardF, Apply;
    DiscardFields(s, m.id);
    if m.body.Some? {
      AckFields(s, m.body.value.commandId, false);
      DeleteFields(Apply(s, SetAck(m.body.value.commandId, false)), m.id, m.body.value.commandId);
    }
  }

  /** Removing the first message of the stream removes nothing else from it, and leaves
      the rest of the cleanup as it was. */
  lemma RemoveHead(s: Redis)
    requires Increasing(s.stream) && s.stream != [] && Removable(s.stream[0], s.now)
    ensures RemoveF(s, s.stream[0]).stream == s.stream[1..]
    ensures RemoveF(s, s.stream[0]).now == s.now
    ensures CleanupF(s) == CleanupF(RemoveF(s, s.stream[0]))
  {
    var head := s.stream[0];
    WithoutAbsent(s.stream[1..], head.id);
    RemoveFields(s, head);
    hide RemoveF;
    var prefix := RemovablePrefix(s.stream, s.now);
    assert prefix[1..] == RemovablePrefix(s.stream[1..], s.now);
  }

  lemma InvIncreasing(s: Redis)
    requires Inv(s)
    ensures Increasing(s.stream)
  {
  }

  ghost predicate NoneOf(ms: seq<Message>, stream: seq<Message>) {
    forall m :: m in ms ==> m !in stream
  }

  /** What has left the stream does not come back: its id is never used again. */
  lemma GoneStay(read: Redis, s: Redis, t: Redis, ms: seq<Message>)
    requires Inv(read) && Evolves(read, s, {}) && Evolves(s, t, {}) && ms <= read.stream && NoneOf(ms, s.stream)
    ensures NoneOf(ms, t.stream)
  {
    forall m | m in ms ensures m !in t.stream {
      assert m in read.stream && m.id <= s.lastId;
    }
  }

  lemma IdGone(s: Redis, t: Redis, id: StreamId)
    requires Evolves(s, t, {}) && id <= s.lastId && forall m :: m in s.stream ==> m.id != id
    ensures forall m :: m in t.stream ==> m.id != id
  {
  }

  lemma Registered(s: Redis, c: CommandId)
    requires c in s.issued
    ensures Apply(s, SetEntry(c)).issued == s.issued[c := s.issued[c].(registered := true)]
  {
  }

  lemma GoneShrinks(s: Redis, read: Redis, t: Redis, m: Message)
    requires Inv(t) && Evolves(s, read, {}) && Evolves(read, t, {}) && m in read.stream && m !in t.stream
    ensures 0 <= t.Measure() < s.Measure()
  {
  }

  /** There is nothing to clean up in an empty stream, or in one that begins with a live message. */
  lemma CleanupEnds(s: Redis)
    ensures s.stream == [] || !Removable(s.stream[0], s.now) ==> CleanupF(s) == s
  {
  }

  // ---------------------------------------------------------------- the writes of the operations

  /** What deleteStreamEntry writes: the acknowledgement comes before the deletion. */
  function DeletionWrites(id: StreamId, command: Option<CommandId>): seq<Write> {
    [XAck(id), XDel(id)] + if command.Some? then [DelEntry(command.value), DelRetry(command.value)] else []
  }

  /** What a cleanup writes for one message, the terminal ack first. */
  function RemovalWrites(m: Message): seq<Write> {
    if m.body.None? then DeletionWrites(m.id, None)
    else [SetAck(m.body.value.commandId, false)] + DeletionWrites(m.id, Some(m.body.value.commandId))
  }

  function AllRemovals(ms: seq<Message>): seq<Write> {
    if ms == [] then [] else AllRemovals(ms[..|ms| - 1]) + RemovalWrites(ms[|ms| - 1])
  }

  lemma {:induction false} RemovalsAppend(xs: seq<Message>, ys: seq<Message>)
    ensures AllRemovals(xs + ys) == AllRemovals(xs) + AllRemovals(ys)
    decreases |ys|
  {
    hide RemovalWrites;
    if ys == [] {
      assert xs + ys == xs;
    } else {
      var n := |ys| - 1;
      RemovalsAppend(xs, ys[..n]);
      assert (xs + ys)[..|xs| + n] == xs + ys[..n];
    }
  }

  /** What a handler writes that found an unanswered command whose entry names `id`. */
  function TerminalWrites(id: StreamId, ack: AckMessage): seq<Write> {
    var c := ack.commandId;
    [SetAck(c, ack.ok), XAck(id), XDel(id), DelEntry(c), DelRetry(c)]
  }

  class CommandQueue {
    var db: Redis
    /** The writes of this process itself, in their order. */
    ghost var written: seq<Write>
    const enabled: bool
    ghost const exclusive: bool

    constructor (enabled: bool, ghost exclusive: bool)
      ensures this.enabled == enabled && this.exclusive == exclusive
      ensures Valid() && db == EMPTY && written == []
    {
      this.enabled := enabled;
      this.exclusive := exclusive;
      db, written := EMPTY, [];
    }

    ghost predicate Valid() reads this {
      Inv(db)
    }

    /** The invariant, and how far the queue may have moved since an earlier state. */
    ghost predicate Since(start: Redis, own: set<CommandId>) reads this {
      Inv(db) && Evolves(start, db, own)
    }

    /** An await: the other operations run. Callers know no more than its contract. */
    method Await(ghost own: set<CommandId>)
      modifies this`db
      ensures Reaches(old(db), db, own)
      ensures exclusive ==> db == old(db)
    {
      ReachesSelf(db, own);
    }

    method Yield(ghost start: Redis, ghost own: set<CommandId>)
      requires Since(start, own)
      modifies this`db
      ensures Since(start, own) && Evolves(old(db), db, own)
      ensures exclusive ==> db == old(db)
    {
      ghost var before := db;
      Await(own);
      ghost var ws :| Runs(before, ws, db, own);
      RunsKeepInv(before, ws, db, own);
      EvolvesTransitive(start, before, db, own);
    }

    /** One Redis command, answered after any amount of interference on either side. */
    method Perform(ghost start: Redis, w: Write)
      requires Since(start, {}) && Standing(db, w)
      modifies this`db, this`written
      ensures Since(start, {}) && Evolves(old(db), db, {})
      ensures exclusive ==> db == Apply(old(db), w)
      ensures written == old(written) + [w]
      ensures w.XDel? ==> forall m :: m in db.stream ==> m.id != w.id
      ensures w.SetAck? ==> db.Terminated(w.c) && (old(db).issued[w.c].registered ==> db.Settled(w.c))
    {
      ghost var before := db;
      Yield(db, {});
      StandingStable(before, db, {}, w);
      ghost var mid := db;
      ApplyKeepsInv(db, w);
      ApplyEvolves(db, w, {});
      db, written := Apply(db, w), written + [w];
      EvolvesTransitive(before, mid, db, {});
      assert w.SetAck? ==> db.Terminated(w.c) && (before.issued[w.c].registered ==> db.Settled(w.c));
      Yield(before, {});
      EvolvesTransitive(start, before, db, {});
    }

    method SetTerminalAck(ghost start: Redis, c: CommandId, ok: bool)
      requires Since(start, {}) && c in db.issued
      modifies this`db, this`written
      ensures Since(start, {}) && Evolves(old(db), db, {})
      ensures exclusive ==> db == Apply(old(db), SetAck(c, ok))
      ensures written == old(written) + [SetAck(c, ok)]
      ensures c in db.issued && db.Terminated(c)
      ensures old(db).issued[c].registered ==> db.Settled(c)
    {
      Perform(start, SetAck(c, ok));
    }

    method DeleteStreamEntry(ghost start: Redis, id: StreamId, command: Option<CommandId>)
      requires Since(start, {}) && db.Discardable(id)
      requires command.Some? ==> command.value in db.issued && db.Terminated(command.value)
      modifies this`db, this`written
      ensures Since(start, {}) && Evolves(old(db), db, {})
      ensures forall m :: m in db.stream ==> m.id != id
      ensures exclusive ==>
        db == if command.None? then DiscardF(old(db), id) else DeleteF(old(db), id, command.value)
      ensures written == old(written) + DeletionWrites(id, command)
    {
      hide Inv, Apply, Evolves;
      ghost var before := db;
      EvolvesSelf(db);
      Yield(before, {});
      StandingStable(before, db, {}, XAck(id));
      Perform(before, XAck(id));
      StandingStable(before, db, {}, XDel(id));
      Perform(before, XDel(id));
      if command.Some? {
        ghost var deleted := db;
        DiscardableStable(before, db, {}, id);
        StandingStable(before, db, {}, DelEntry(command.value));
        EvolvesSelf(db);
        Perform(deleted, DelEntry(command.value));
        Perform(deleted, DelRetry(command.value));
        EvolvesTransitive(before, deleted, db, {});
        IdGone(deleted, db, id);
      }
      EvolvesTransitive(start, before, db, {});
    }

    method ScheduleRetry(ghost start: Redis, c: CommandId) returns (availableAt: nat)
      requires Since(start, {})
      modifies this`db, this`written
      ensures Since(start, {}) && Evolves(old(db), db, {})
      ensures exclusive ==>
        db == ScheduleRetryF(old(db), c)
        && availableAt == old(db).now + RetryDelayMs(AttemptsOf(old(db), c) + 1)
      ensures old(db).now + 2_000 <= availableAt <= db.now + 30_000
      ensures exists attempts :: written == old(written) + [SetRetry(c, attempts, availableAt)]
    {
      hide Inv, Evolves, Apply, RetryDelayMs, AttemptsOf;
      EvolvesSelf(db);
      ghost var before := db;
      Yield(before, {});
      var attempts := AttemptsOf(db, c) + 1;
      Yield(before, {});
      EvolvesIssue(before, db, {}, c);
      BackoffDelays(attempts);
      availableAt := db.now + RetryDelayMs(attempts);
      ghost var computed := db;
      Perform(before, SetRetry(c, attempts, availableAt));
      EvolvesIssue(computed, db, {}, c);
      EvolvesTransitive(start, before, db, {});
    }

    /** One message of a batch that was read earlier: removed unless it is live. */
    method CleanupMessage(ghost read: Redis, m: Message) returns (live: bool)
      requires Inv(read) && m in read.stream && Since(read, {})
      modifies this`db, this`written
      ensures Since(read, {}) && Evolves(old(db), db, {})
      ensures !live ==> m !in db.stream
      ensures exclusive ==> live == !Removable(m, old(db).now) && db == if live then old(db) else RemoveF(old(db), m)
      ensures written == old(written) + if live then [] else RemovalWrites(m)
    {
      hide Inv, Evolves, Apply, DeleteF, DiscardF;
      ghost var before := db;
      EvolvesSelf(db);
      live := false;
      if m.body.None? {
        MalformedDiscardable(read, m);
        DiscardableStable(read, db, {}, m.id);
        DeleteStreamEntry(read, m.id, None);
      } else if m.body.value.expiresAt > db.now {
        live := true;
      } else {
        var c := m.body.value.commandId;
        StreamIssue(read, m);
        EvolvesIssue(read, db, {}, c);
        SetTerminalAck(read, c, false);
        EvolvesIssue(before, db, {}, c);
        TerminatedDiscardable(db, c);
        ghost var acked := db;
        DeleteStreamEntry(read, m.id, Some(c));
        EvolvesTransitive(before, acked, db, {});
      }
    }

    /** The messages of one batch, up to the first live one. */
    method CleanupBatch(batch: seq<Message>) returns (removed: nat, sawUnexpired: bool)
      requires Valid() && batch <= db.stream
      modifies this`db, this`written
      ensures Since(old(db), {})
      ensures !sawUnexpired ==> removed == |batch| && forall m :: m in batch ==> m !in db.stream
      ensures exclusive ==> CleanupF(db) == CleanupF(old(db)) && |db.stream| + removed == |old(db).stream|
      ensures exclusive && sawUnexpired ==> db.stream != [] && !Removable(db.stream[0], db.now)
      ensures removed <= |batch| && written == old(written) + AllRemovals(batch[..removed])
    {
      hide Inv, Evolves, Apply, CleanupF, RemoveF, RemovalWrites;
      EvolvesSelf(db);
      ghost var read := db;
      removed, sawUnexpired := 0, false;
      while removed < |batch| && !sawUnexpired
        invariant removed <= |batch|
        invariant Since(read, {})
        invariant NoneOf(batch[..removed], db.stream)
        invariant exclusive ==> CleanupF(db) == CleanupF(read) && db.stream == read.stream[removed..]
        invariant exclusive && sawUnexpired ==> db.stream != [] && !Removable(db.stream[0], db.now)
        invariant written == old(written) + AllRemovals(batch[..removed])
        decreases |batch| - removed, !sawUnexpired
      {
        ghost var now := db;
        InvIncreasing(db);
        if exclusive && Removable(batch[removed], db.now) { RemoveHead(db); }
        sawUnexpired := CleanupMessage(read, batch[removed]);
        GoneStay(read, now, db, batch[..removed]);
        if !sawUnexpired {
          assert batch[..removed + 1] == batch[..removed] + [batch[removed]];
          assert batch[..removed + 1][..removed] == batch[..removed];
          removed := removed + 1;
        }
      }
    }

    /** One batch, read from the head of the stream; `last` says that no more follows. */
    method CleanupRound() returns (removed: nat, last: bool, ghost gone: seq<Message>)
      requires Valid()
      modifies this`db, this`written
      ensures Since(old(db), {})
      ensures !last ==> 0 <= db.Measure() < old(db).Measure()
      ensures exclusive ==> CleanupF(db) == CleanupF(old(db)) && |db.stream| + removed == |old(db).stream|
      ensures exclusive && last ==> CleanupF(db) == db
      ensures |gone| == removed && written == old(written) + AllRemovals(gone)
    {
      hide Inv, Evolves, Apply, CleanupF, RemovalWrites, AllRemovals;
      ghost var before := db;
      EvolvesSelf(db);
      Yield(before, {});
      ghost var read := db;
      var batch := db.stream[..if |db.stream| < CLEANUP_BATCH_SIZE then |db.stream| else CLEANUP_BATCH_SIZE];
      var n, sawUnexpired := CleanupBatch(batch);
      EvolvesTransitive(before, read, db, {});
      removed, gone := n, batch[..n];
      last := |batch| == 0 || sawUnexpired || |batch| < CLEANUP_BATCH_SIZE;
      if last {
        CleanupEnds(db);
      } else {
        assert batch[0] in read.stream && batch[0] !in db.stream;
        GoneShrinks(before, read, db, batch[0]);
      }
    }

    /** Batches of expired messages leave the stream until one is live. A stream id is
        never used twice, so the loop ends however many commands others add. */
    method CleanupExpired(ghost start: Redis) returns (removed: nat)
      requires Since(start, {})
      modifies this`db, this`written
      ensures Since(start, {}) && Evolves(old(db), db, {})
      ensures exclusive ==> if enabled then db == CleanupF(old(db)) && removed == |old(db).stream| - |db.stream|
                            else db == old(db) && removed == 0
      ensures exists gone :: |gone| == removed && written == old(written) + AllRemovals(gone)
    {
      hide Inv, Evolves, Apply, CleanupF, RemovalWrites;
      removed := 0;
      ghost var gone: seq<Message> := [];
      assert written == written + AllRemovals(gone);
      EvolvesSelf(db);
      if !enabled { return; }
      hide AllRemovals;
      ghost var before := db;
      var last := false;
      while !last
        invariant Since(before, {}) && Evolves(start, db, {})
        invariant exclusive ==> CleanupF(db) == CleanupF(before) && removed + |db.stream| == |before.stream|
        invariant exclusive && last ==> CleanupF(db) == db
        invariant |gone| == removed && written == old(written) + AllRemovals(gone)
        decreases !last, db.Measure()
      {
        ghost var round := db;
        ghost var ms;
        var n;
        n, last, ms := CleanupRound();
        removed := removed + n;
        RemovalsAppend(gone, ms);
        gone := gone + ms;
        EvolvesTransitive(before, round, db, {});
        EvolvesTransitive(start, round, db, {});
      }
    }

    /** XREADGROUP ... COUNT 1. `at` is the state in which Redis executed it. */
    method ReadGroup(ghost start: Redis, mode: ReadMode) returns (m: Option<Message>, ghost at: Redis)
      requires Since(start, {})
      modifies this`db, this`written
      ensures Since(start, {}) && Inv(at) && Evolves(old(db), at, {}) && Evolves(at, db, {})
      ensures m.Some? ==> m.value in at.stream
      ensures exclusive && mode.Pending? ==> m == PendingHead(db) && db == old(db)
      ensures exclusive && mode.New? ==>
        m == FirstAfter(old(db).stream, old(db).delivered) && db == Apply(old(db), XReadNew)
      ensures written == old(written) + if mode.New? then [XReadNew] else []
    {
      ghost var before := db;
      Yield(before, {});
      ghost var mid := db;
      if mode.Pending? {
        m := PendingHead(db);
      } else {
        m := FirstAfter(db.stream, db.delivered);
        ApplyKeepsInv(db, XReadNew);
        ApplyEvolves(db, XReadNew, {});
        db, written := Apply(db, XReadNew), written + [XReadNew];
      }
      at := db;
      hide Inv, Apply;
      EvolvesTransitive(before, mid, at, {});
      Yield(at, {});
      EvolvesTransitive(before, at, db, {});
      EvolvesTransitive(start, before, db, {});
    }

    /** What nextReadableCommands does with the one message it read in state `at`. */
    method Screen(ghost start: Redis, ghost at: Redis, m: Message) returns (r: Option<Command>)
      requires Since(start, {}) && Inv(at) && Evolves(at, db, {}) && m in at.stream
      modifies this`db, this`written
      ensures Since(start, {})
      ensures r.Some? ==>
        && r.value.commandId in db.issued && db.issued[r.value.commandId].command == r.value
        && at.now < r.value.expiresAt
      ensures exclusive ==> (db, r) == ScreenF(old(db), m)
      ensures m.body.None? || m.body.value.expiresAt <= old(db).now ==>
        && r.None? && m !in db.stream
        && written == old(written) + DeletionWrites(m.id, if m.body.None? then None else Some(m.body.value.commandId))
      ensures m.body.Some? && old(db).now < m.body.value.expiresAt ==> written == old(written)
    {
      hide Inv, Evolves, Apply;
      if m.body.None? {
        MalformedDiscardable(at, m);
        DiscardableStable(at, db, {}, m.id);
        DeleteStreamEntry(start, m.id, None);
        return None;
      }
      var command := m.body.value;
      var c := command.commandId;
      StreamIssue(at, m);
      EvolvesIssue(at, db, {}, c);
      if command.expiresAt <= db.now {
        TerminatedDiscardable(db, c);
        DeleteStreamEntry(start, m.id, Some(c));
        return None;
      }
      ghost var before := db;
      Yield(start, {});
      EvolvesIssue(before, db, {}, c);
      return if BackedOff(db, c) then None else Some(command);
    }

    /** readPendingDeviceCommands and readNewDeviceCommands: at most one command to send. */
    method NextReadable(mode: ReadMode, groupOk: bool) returns (r: Option<Command>)
      requires Valid()
      modifies this`db, this`written
      ensures Since(old(db), {})
      ensures r.Some? ==>
        && r.value.commandId in db.issued && db.issued[r.value.commandId].command == r.value
        && old(db).now < r.value.expiresAt
      ensures exclusive && enabled && groupOk ==> (db, r) == ReadF(old(db), mode)
      ensures !enabled || !groupOk ==> r.None?
    {
      hide Inv, Evolves, Apply, CleanupF;
      EvolvesSelf(db);
      if !enabled { return None; }
      ghost var before := db;
      Yield(before, {});
      if !groupOk { return None; }
      var _ := CleanupExpired(before);
      ghost var clean := db;
      var m, at := ReadGroup(before, mode);
      EvolvesTransitive(before, clean, at, {});
      EvolvesIssue(before, at, {}, "");
      if m.None? { return None; }
      r := Screen(before, at, m.value);
    }

    /** `gap` is Redis' own choice of the next stream id. */
    method Enqueue(c: CommandId, commandType: string, payload: string, groupOk: bool, gap: nat)
      returns (queued: bool, command: Command)
      requires Valid() && c !in db.issued
      modifies this`db, this`written
      ensures Since(old(db), {})
      ensures command == Command(c, commandType, payload, old(db).now, old(db).now + 900_000)
      ensures queued ==> c in db.issued && db.issued[c].command == command && db.issued[c].registered
      ensures !queued ==> c !in db.issued && written == old(written)
      ensures queued ==> old(written) + [XAdd(db.issued[c].streamId, command), SetEntry(c)] <= written
      ensures exclusive && queued ==> db == EnqueueF(old(db), old(db).lastId + 1 + gap, command)
      ensures exclusive && !queued ==> db == old(db)
      ensures exclusive ==> queued == (enabled && groupOk && old(db).lastId + 1 + gap <= MAX_STREAM_ID)
    {
      hide Inv, Evolves, Apply, CleanupF;
      queued := false;
      command := Command(c, commandType, payload, db.now, db.now + COMMAND_TTL_MS);
      ghost var before := db;
      OwnSelf(db, db, {c});
      if !enabled { return; }
      Yield(before, {c});
      Yield(before, {c});
      FreshStays(before, db, c);
      OwnSelf(before, db, {c});
      if !groupOk { return; }
      var id := db.lastId + 1 + gap;
      if MAX_STREAM_ID < id { return; }
      Publish(before, id, command);
      queued := true;
    }

    /** The writes of an enqueue that is accepted. */
    method Publish(ghost start: Redis, id: StreamId, command: Command)
      requires Since(start, {command.commandId}) && Enabled(db, XAdd(id, command)) && enabled
      modifies this`db, this`written
      ensures Since(start, {})
      ensures command.commandId in db.issued
      ensures db.issued[command.commandId] == Issue(id, command, true)
      ensures exclusive ==> db == EnqueueF(old(db), id, command)
      ensures old(written) + [XAdd(id, command), SetEntry(command.commandId)] <= written
    {
      hide Inv, Evolves, Apply, CleanupF;
      Append(start, id, command);
      RegisterEntry(start, command.commandId);
      ghost var registered := db;
      var _ := CleanupExpired(start);
      IssueStays(registered, db, command.commandId);
    }

    method Append(ghost start: Redis, id: StreamId, command: Command)
      requires Since(start, {command.commandId}) && Enabled(db, XAdd(id, command))
      modifies this`db, this`written
      ensures Since(start, {})
      ensures db == Apply(old(db), XAdd(id, command)) && written == old(written) + [XAdd(id, command)]
      ensures command.commandId in db.issued && db.issued[command.commandId] == Issue(id, command, false)
    {
      ghost var before := db;
      ApplyKeepsInv(db, XAdd(id, command));
      ApplyEvolves(db, XAdd(id, command), {});
      db, written := Apply(db, XAdd(id, command)), written + [XAdd(id, command)];
      OwnSelf(start, before, {command.commandId});
      hide Inv, Evolves;
      EvolvesTransitive(start, before, db, {});
    }

    /** The second write of an enqueue; no other operation registers this command. */
    method RegisterEntry(ghost start: Redis, c: CommandId)
      requires Since(start, {}) && c in db.issued && !db.issued[c].registered
      modifies this`db, this`written
      ensures Since(start, {}) && c in db.issued && db.issued[c] == old(db).issued[c].(registered := true)
      ensures exclusive ==> db == Apply(old(db), SetEntry(c))
      ensures written == old(written) + [SetEntry(c)]
    {
      hide Inv, Evolves, Apply;
      ghost var before := db;
      OwnSelf(db, db, {c});
      EvolvesSelf(db);
      Yield(before, {c});
      EvolvesIssue(before, db, {c}, c);
      ghost var mid := db;
      ApplyKeepsInv(db, SetEntry(c));
      ApplyEvolves(db, SetEntry(c), {});
      Registered(db, c);
      db, written := Apply(db, SetEntry(c)), written + [SetEntry(c)];
      OwnSelf(before, mid, {c});
      EvolvesTransitive(before, mid, db, {});
      EvolvesTransitive(start, before, db, {});
    }

    /** Once a command is settled no ack message gets it as an outcome again; a terminal
        outcome settles it. Both hold under interference. */
    method Ack(ack: AckMessage) returns (outcome: AckOutcome)
      requires Valid()
      modifies this`db, this`written
      ensures Since(old(db), {})
      ensures old(db).Settled(ack.commandId) ==> outcome == Acked(None) || outcome == Ignored
      ensures outcome.Terminal() ==>
        && db.Settled(ack.commandId) && db.Terminated(ack.commandId)
        && outcome.command.value == db.issued[ack.commandId].command
      ensures outcome.Terminal() || outcome.Retry? ==> (outcome.Retry? <==> AsksAgain(ack))
      ensures outcome.Retry? ==>
        && ack.commandId in db.issued && outcome.retried == db.issued[ack.commandId].command
        && old(db).now + 2_000 <= outcome.retryAt <= db.now + 30_000
      ensures outcome.Terminal() ==>
        written == old(written) + TerminalWrites(db.issued[ack.commandId].streamId, ack)
      ensures outcome.Retry? ==>
        exists attempts :: written == old(written) + [SetRetry(ack.commandId, attempts, outcome.retryAt)]
      ensures !outcome.Terminal() && !outcome.Retry? ==> written == old(written)
      ensures exclusive ==> (db, outcome) == if enabled then AckF(old(db), ack) else (old(db), Ignored)
    {
      hide Inv, Evolves, Apply;
      EvolvesSelf(db);
      if !enabled { return Ignored; }
      var c := ack.commandId;
      ghost var before := db;
      Yield(before, {});
      EvolvesIssue(before, db, {}, c);
      if db.AckVisible(c) { return Acked(None); }
      ghost var unacked := db;
      Yield(before, {});
      EvolvesIssue(unacked, db, {}, c);
      if !db.EntryVisible(c) { return Ignored; }
      var entry := db.entries[c];
      EntryIssue(db, c);
      ghost var read := db;
      Yield(before, {});
      EvolvesIssue(read, db, {}, c);
      if ack.WantsRetry() {
        ghost var asked := db;
        EvolvesIssue(before, db, {}, c);
        var retryAt := ScheduleRetry(before, c);
        EvolvesIssue(asked, db, {}, c);
        return Retry(retryAt, entry.command);
      }
      ghost var waited := db;
      SetTerminalAck(before, c, ack.ok);
      EvolvesIssue(waited, db, {}, c);
      TerminatedDiscardable(db, c);
      ghost var acked := db;
      DeleteStreamEntry(before, entry.streamId, Some(c));
      EvolvesIssue(acked, db, {}, c);
      return Acked(Some(entry.command));
    }
  }
}

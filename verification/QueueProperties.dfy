/** What the queue operations promise, proved of their atomic meanings and of their code. */
module QueueProperties {
  import opened Wrappers
  import opened RedisQueue
  import opened DeviceCommands

  // ---------------------------------------------------------------- atomic operations keep the invariant

  lemma DiscardKeepsInv(s: Redis, id: StreamId)
    requires Inv(s) && s.Discardable(id)
    ensures Inv(DiscardF(s, id))
  {
    ApplyKeepsInv(s, XAck(id));
    ApplyEvolves(s, XAck(id), {});
    DiscardableStable(s, Apply(s, XAck(id)), {}, id);
    ApplyKeepsInv(Apply(s, XAck(id)), XDel(id));
  }

  lemma DeleteKeepsInv(s: Redis, c: CommandId)
    requires Inv(s) && c in s.issued && s.Terminated(c)
    ensures Inv(DeleteF(s, s.issued[c].streamId, c))
  {
    var id := s.issued[c].streamId;
    TerminatedDiscardable(s, c);
    DiscardKeepsInv(s, id);
    var t := DiscardF(s, id);
    ApplyKeepsInv(t, DelEntry(c));
    ApplyKeepsInv(Apply(t, DelEntry(c)), DelRetry(c));
  }

  lemma RemoveKeepsInv(s: Redis, m: Message)
    requires Inv(s) && m in s.stream && Removable(m, s.now)
    ensures Inv(RemoveF(s, m))
  {
    if m.body.None? {
      MalformedDiscardable(s, m);
      DiscardKeepsInv(s, m.id);
    } else {
      var c := m.body.value.commandId;
      StreamIssue(s, m);
      ApplyKeepsInv(s, SetAck(c, false));
      DeleteKeepsInv(Apply(s, SetAck(c, false)), c);
    }
  }

  // ---------------------------------------------------------------- cleanup

  /** The removed messages' keys: a terminal ack is there, entry and retry are gone. */
  ghost predicate CleanedUp(t: Redis, m: Message) {
    m.body.Some? ==>
      && m.body.value.commandId in t.acks
      && t.acks[m.body.value.commandId] == AckRecord(false, t.now + ACK_TTL_MS)
      && m.body.value.commandId !in t.entries
      && m.body.value.commandId !in t.retries
  }

  ghost predicate SameKeys(s: Redis, t: Redis, c: CommandId) {
    && (c in s.acks <==> c in t.acks) && (c in s.acks ==> s.acks[c] == t.acks[c])
    && (c in s.entries <==> c in t.entries) && (c in s.entries ==> s.entries[c] == t.entries[c])
    && (c in s.retries <==> c in t.retries) && (c in s.retries ==> s.retries[c] == t.retries[c])
  }

  ghost predicate Names(ms: seq<Message>, c: CommandId) {
    exists m :: m in ms && m.body.Some? && m.body.value.commandId == c
  }

  predicate HasId(ms: seq<Message>, id: StreamId) {
    exists m :: m in ms && m.id == id
  }

  lemma RemoveKeys(s: Redis, m: Message, c: CommandId)
    ensures CleanedUp(RemoveF(s, m), m)
    ensures !(m.body.Some? && m.body.value.commandId == c) ==> SameKeys(s, RemoveF(s, m), c)
    ensures RemoveF(s, m).issued == s.issued && RemoveF(s, m).lastId == s.lastId
    ensures RemoveF(s, m).delivered == s.delivered && RemoveF(s, m).pending == WithoutId(s.pending, m.id)
  {
    hide Without, WithoutId, DeleteF, DiscardF, Apply;
    DiscardFields(s, m.id);
    if m.body.Some? {
      AckFields(s, m.body.value.commandId, false);
      DeleteFields(Apply(s, SetAck(m.body.value.commandId, false)), m.id, m.body.value.commandId);
    }
  }

  /** The keys and the bookkeeping after these messages were removed, and nothing else. */
  ghost predicate RemovedFrom(s: Redis, ms: seq<Message>, t: Redis) {
    && t.now == s.now && t.issued == s.issued && t.lastId == s.lastId && t.delivered == s.delivered
    && (forall id :: id in t.pending <==> id in s.pending && !HasId(ms, id))
    && (forall m :: m in ms ==> CleanedUp(t, m))
    && (forall c :: !Names(ms, c) ==> SameKeys(s, t, c))
  }

  lemma NothingRemoved(s: Redis)
    ensures RemovedFrom(s, [], s)
  {
  }

  lemma HasIdMore(head: Message, rest: seq<Message>, id: StreamId)
    ensures HasId([head] + rest, id) <==> head.id == id || HasId(rest, id)
  {
    assert head in [head] + rest;
    assert forall m :: m in [head] + rest <==> m == head || m in rest;
  }

  lemma NamesMore(head: Message, rest: seq<Message>, c: CommandId)
    ensures Names([head] + rest, c) <==> (head.body.Some? && head.body.value.commandId == c) || Names(rest, c)
  {
    assert head in [head] + rest;
    assert forall m :: m in [head] + rest <==> m == head || m in rest;
  }

  lemma StillCleanedUp(t: Redis, u: Redis, head: Message, rest: seq<Message>)
    requires CleanedUp(t, head) && RemovedFrom(t, rest, u)
    ensures CleanedUp(u, head)
  {
    if head.body.Some? {
      var c := head.body.value.commandId;
      if Names(rest, c) {
        var m :| m in rest && m.body.Some? && m.body.value.commandId == c;
        assert CleanedUp(u, m);
      } else {
        assert SameKeys(t, u, c);
      }
    }
  }

  lemma RemovedOneMore(s: Redis, head: Message, rest: seq<Message>, u: Redis)
    requires RemovedFrom(RemoveF(s, head), rest, u)
    ensures RemovedFrom(s, [head] + rest, u)
  {
    hide RemoveF, Names, HasId, CleanedUp;
    var t := RemoveF(s, head);
    RemoveKeys(s, head, "");
    RemoveFields(s, head);
    StillCleanedUp(t, u, head, rest);
    forall id ensures HasId([head] + rest, id) <==> head.id == id || HasId(rest, id) { HasIdMore(head, rest, id); }
    forall c | !Names([head] + rest, c) ensures SameKeys(s, u, c) {
      NamesMore(head, rest, c);
      RemoveKeys(s, head, c);
      assert SameKeys(t, u, c);
    }
  }

  /** What a cleanup does, for every stream: the messages before the first live one go,
      each with a terminal ack in its place, and nothing else changes. */
  lemma {:induction false} CleanupEffect(s: Redis)
    requires Inv(s)
    ensures Inv(CleanupF(s))
    ensures CleanupF(s).stream == s.stream[|RemovablePrefix(s.stream, s.now)|..]
    ensures RemovedFrom(s, RemovablePrefix(s.stream, s.now), CleanupF(s))
    decreases |s.stream|
  {
    hide Inv, RemoveF, CleanupF, RemovedFrom;
    var prefix := RemovablePrefix(s.stream, s.now);
    if prefix == [] {
      CleanupNothing(s);
      NothingRemoved(s);
    } else {
      var head := s.stream[0];
      var t := RemoveF(s, head);
      InvIncreasing(s);
      RemoveHead(s);
      RemoveKeepsInv(s, head);
      CleanupEffect(t);
      assert prefix == [head] + RemovablePrefix(t.stream, t.now);
      RemovedOneMore(s, head, RemovablePrefix(t.stream, t.now), CleanupF(t));
    }
  }

  lemma CleanupNothing(s: Redis)
    requires RemovablePrefix(s.stream, s.now) == []
    ensures CleanupF(s) == s
  {
  }

  function LiveOnly(stream: seq<Message>, now: nat): (r: seq<Message>)
    ensures forall m :: m in r <==> m in stream && !Removable(m, now)
  {
    if stream == [] then []
    else (if Removable(stream[0], now) then [] else [stream[0]]) + LiveOnly(stream[1..], now)
  }

  /** Nothing removable is queued behind something live. */
  ghost predicate ExpiryInOrder(stream: seq<Message>, now: nat) {
    forall i, j :: 0 <= i < j < |stream| && Removable(stream[j], now) ==> Removable(stream[i], now)
  }

  lemma {:induction false} AllLive(stream: seq<Message>, now: nat)
    ensures LiveOnly(stream, now) == stream <==> forall m :: m in stream ==> !Removable(m, now)
    ensures |LiveOnly(stream, now)| <= |stream|
  {
    if stream != [] {
      AllLive(stream[1..], now);
      if LiveOnly(stream, now) == stream {
        assert |LiveOnly(stream[1..], now)| <= |stream[1..]|;
        assert LiveOnly(stream, now)[0] == stream[0];
        assert stream[1..] == LiveOnly(stream, now)[1..];
      }
    }
  }

  /** The batched loop stops at the first live message, so it is a filter exactly when
      expiry follows the order of the stream. */
  lemma {:induction false} PrefixIsFilter(stream: seq<Message>, now: nat)
    ensures stream[|RemovablePrefix(stream, now)|..] == LiveOnly(stream, now) <==> ExpiryInOrder(stream, now)
  {
    if stream == [] {
    } else if Removable(stream[0], now) {
      var rest := stream[1..];
      PrefixIsFilter(rest, now);
      assert stream[|RemovablePrefix(stream, now)|..] == rest[|RemovablePrefix(rest, now)|..];
      if ExpiryInOrder(rest, now) {
        forall i, j | 0 <= i < j < |stream| && Removable(stream[j], now) ensures Removable(stream[i], now) {
          if i > 0 { assert Removable(rest[j - 1], now) && rest[i - 1] == stream[i]; }
        }
      }
      if ExpiryInOrder(stream, now) {
        forall i, j | 0 <= i < j < |rest| && Removable(rest[j], now) ensures Removable(rest[i], now) {
          assert Removable(stream[j + 1], now) && rest[i] == stream[i + 1];
        }
      }
    } else {
      AllLive(stream, now);
      assert stream[0..] == stream;
      if ExpiryInOrder(stream, now) {
        forall m | m in stream ensures !Removable(m, now) {
          var j :| 0 <= j < |stream| && stream[j] == m;
        }
      }
    }
  }

  lemma CleanupIsFilter(s: Redis)
    requires Inv(s)
    ensures CleanupF(s).stream == LiveOnly(s.stream, s.now) <==> ExpiryInOrder(s.stream, s.now)
  {
    CleanupEffect(s);
    PrefixIsFilter(s.stream, s.now);
  }

  // ---------------------------------------------------------------- acks

  /** What an ack comes to, for every state: a retry exactly if the device says so, or says
      nothing and gives one of six errors; else the end of the command. Neither without an
      entry, or when there is an ack already. */
  lemma AckComesTo(s: Redis, ack: AckMessage)
    ensures var c, (t, outcome) := ack.commandId, AckF(s, ack);
      var acked, known := c in s.acks && s.now < s.acks[c].deadline, c in s.entries && s.now < s.entries[c].deadline;
      && (acked ==> (t, outcome) == (s, Acked(None)))
      && (!acked && !known ==> (t, outcome) == (s, Ignored))
      && (outcome.Retry? <==>
            && !acked && known && !ack.ok
            && (|| ack.retryable == Some(true)
                || (ack.retryable.None?
                    && (|| ack.errorCode.TempUnavailable? || ack.errorCode.DeviceBusy?
                        || ack.errorCode.RateLimitedLocal? || ack.errorCode.ExecutionFailedTransient?
                        || ack.errorCode.NetworkError? || ack.errorCode.InternalError?))))
      && (outcome.Retry? ==> outcome.retried == s.entries[c].command)
      && (!acked && known && !outcome.Retry? ==> outcome == Acked(Some(s.entries[c].command)))
  {
    hide ScheduleRetryF, DeleteF, Apply, RetryDelayMs, AttemptsOf;
  }

  /** What it leaves in the queue: a retry record with its time, or an ack record that says
      what the device said and nothing else of the command. */
  lemma AckLeaves(s: Redis, ack: AckMessage)
    ensures var c, (t, outcome) := ack.commandId, AckF(s, ack);
      var attempts := if c in s.retries && s.now < s.retries[c].deadline then s.retries[c].attempts + 1 else 1;
      && (outcome.Retry? ==>
            && t == s.(retries := s.retries[c := RetryRecord(attempts, outcome.retryAt, s.now + 900_000)])
            && outcome.retryAt == s.now + (match attempts
                                           case 1 => 2_000
                                           case 2 => 4_000
                                           case 3 => 8_000
                                           case 4 => 16_000
                                           case _ => 30_000))
      && (outcome.Terminal() ==>
            var id := s.entries[c].streamId;
            && t.acks == s.acks[c := AckRecord(ack.ok, s.now + 86_400_000)]
            && c !in t.entries && c !in t.retries && id !in t.pending && !HasId(t.stream, id)
            && (forall m :: m in s.stream && m.id != id ==> m in t.stream))
  {
    hide Without, WithoutId, DeleteF, Apply;
    var c := ack.commandId;
    BackoffDelays(AttemptsOf(s, c) + 1);
    AckFields(s, c, ack.ok);
    if s.EntryVisible(c) { DeleteFields(Apply(s, SetAck(c, ack.ok)), s.entries[c].streamId, c); }
    RetryLeaves(s, c);
  }

  lemma RetryLeaves(s: Redis, c: CommandId)
    ensures ScheduleRetryF(s, c) ==
            s.(retries := s.retries[c := RetryRecord(AttemptsOf(s, c) + 1, s.now + RetryDelayMs(AttemptsOf(s, c) + 1),
                                                     s.now + 900_000)])
  {
    hide RetryDelayMs, AttemptsOf;
  }

  /** One ack handler, some time after the last one. */
  method HandleAck(queue: CommandQueue, m: AckMessage) returns (outcome: AckOutcome)
    requires queue.Valid()
    modifies queue
    ensures queue.Valid()
    ensures forall c :: old(queue.db).Settled(c) ==> queue.db.Settled(c)
    ensures outcome.Terminal() ==> queue.db.Settled(m.commandId) && !old(queue.db).Settled(m.commandId)
  {
    hide Inv, Evolves;
    ghost var before := queue.db;
    EvolvesSelf(before);
    queue.Yield(before, {});
    SettledStays(before, queue.db);
    ghost var mid := queue.db;
    outcome := queue.Ack(m);
    SettledStays(mid, queue.db);
  }

  /** Ack handlers that run one after another, with everything else free to happen
      before, between and during them, hand no command out twice. */
  method HandleAcks(queue: CommandQueue, messages: seq<AckMessage>) returns (outcomes: seq<AckOutcome>)
    requires queue.Valid()
    modifies queue
    ensures queue.Valid() && |outcomes| == |messages|
    ensures forall i, j :: 0 <= i < j < |messages| && messages[i].commandId == messages[j].commandId ==>
      !(outcomes[i].Terminal() && outcomes[j].Terminal())
  {
    outcomes := [];
    while |outcomes| < |messages|
      invariant queue.Valid() && |outcomes| <= |messages|
      invariant forall i :: 0 <= i < |outcomes| && outcomes[i].Terminal() ==> queue.db.Settled(messages[i].commandId)
      invariant forall i, j :: 0 <= i < j < |outcomes| && messages[i].commandId == messages[j].commandId ==>
        !(outcomes[i].Terminal() && outcomes[j].Terminal())
      decreases |messages| - |outcomes|
    {
      hide Inv;
      var outcome := HandleAck(queue, messages[|outcomes|]);
      outcomes := outcomes + [outcome];
    }
  }

  lemma SettledStays(s: Redis, t: Redis)
    requires Evolves(s, t, {})
    ensures forall c :: s.Settled(c) ==> t.Settled(c)
  {
    forall c | s.Settled(c) ensures t.Settled(c) {
      assert IssueEvolves(s, t, {}, c);
    }
  }

  // Two handlers of one command overlap. Each reads the ack record, then the entry, and on
  // finding no ack and an entry makes its five terminal writes. Whichever way they interleave,
  // one of them has done both its reads before the other writes anything; call it the first.
  // The second reads the ack record in a later state `t`, and the entry in a state `u` after
  // that; in between anything may be written, by the first handler or by anyone else.

  /** What the second handler then finds. */
  predicate FindsCommand(t: Redis, u: Redis, c: CommandId) {
    !t.AckVisible(c) && u.EntryVisible(c)
  }

  ghost predicate Answered(ws: seq<Write>, c: CommandId) {
    exists ok :: SetAck(c, ok) in ws
  }

  lemma AnsweredMore(w: Write, rest: seq<Write>, c: CommandId)
    ensures Answered([w] + rest, c) <==> (w.SetAck? && w.c == c) || Answered(rest, c)
  {
    assert w in [w] + rest;
    if w.SetAck? && w.c == c { assert SetAck(c, w.ok) in [w] + rest; }
    forall x | x in rest ensures x in [w] + rest {}
  }

  /** One write changes the keys of a registered command only if it is about them. */
  lemma KeysThen(s: Redis, w: Write, c: CommandId)
    requires Enabled(s, w) && c in s.issued && s.issued[c].registered
    ensures var t := Apply(s, w);
      && s.now <= t.now && c in t.issued && t.issued[c].registered
      && (if w.SetAck? && w.c == c then c in t.acks && t.acks[c].deadline == s.now + ACK_TTL_MS
          else (c in t.acks <==> c in s.acks) && (c in s.acks ==> t.acks[c] == s.acks[c]))
      && (if w == DelEntry(c) then c !in t.entries
          else (c in t.entries <==> c in s.entries) && (c in s.entries ==> t.entries[c] == s.entries[c]))
  {
    hide FirstAfter, Without, WithoutId;
  }

  /** The keys of a registered command after any writes of anyone. */
  lemma {:induction false} KeysAfter(s: Redis, ws: seq<Write>, t: Redis, c: CommandId)
    requires Runs(s, ws, t, {}) && c in s.issued && s.issued[c].registered
    ensures s.now <= t.now
    ensures if Answered(ws, c) then c in t.acks && s.now + ACK_TTL_MS <= t.acks[c].deadline
            else (c in t.acks <==> c in s.acks) && (c in s.acks ==> t.acks[c] == s.acks[c])
    ensures if DelEntry(c) in ws then c !in t.entries
            else (c in t.entries <==> c in s.entries) && (c in s.entries ==> t.entries[c] == s.entries[c])
    decreases |ws|
  {
    hide Answered, Apply, Enabled;
    if ws == [] {
      NotAnswered(c);
    } else {
      assert ws == [ws[0]] + ws[1..];
      AnsweredMore(ws[0], ws[1..], c);
      KeysThen(s, ws[0], c);
      KeysAfter(Apply(s, ws[0]), ws[1..], t, c);
    }
  }

  lemma NotAnswered(c: CommandId)
    ensures !Answered([], c)
  {
  }

  /** Exactly when the second handler gets the command as a terminal outcome too: it read the
      ack record before anyone wrote it, and the entry before anyone deleted it or it expired. */
  lemma SecondGetsItIff(s: Redis, toAck: seq<Write>, t: Redis, toEntry: seq<Write>, u: Redis, c: CommandId)
    requires Inv(s) && s.EntryVisible(c) && !s.AckVisible(c)
    requires Runs(s, toAck, t, {}) && Runs(t, toEntry, u, {})
    ensures FindsCommand(t, u, c) <==>
            && !Answered(toAck, c)
            && DelEntry(c) !in toAck && DelEntry(c) !in toEntry
            && u.now < s.entries[c].deadline
  {
    hide Runs, Answered, StreamOk, AcksOk;
    EntryIssue(s, c);
    RunsKeepInv(s, toAck, t, {});
    assert IssueEvolves(s, t, {}, c);
    KeysAfter(s, toAck, t, c);
    KeysAfter(t, toEntry, u, c);
  }

  /** `ws` are the writes `xs` and `ys` of two handlers, each in its order, and between them
      whatever others may write. */
  ghost predicate Woven(s: Redis, ws: seq<Write>, xs: seq<Write>, ys: seq<Write>)
    decreases |ws|
  {
    if ws == [] then xs == [] && ys == []
    else
      var next := Apply(s, ws[0]);
      || (Enabled(s, ws[0]) && Woven(next, ws[1..], xs, ys))
      || (xs != [] && ws[0] == xs[0] && Woven(next, ws[1..], xs[1..], ys))
      || (ys != [] && ws[0] == ys[0] && Woven(next, ws[1..], xs, ys[1..]))
  }

  /** Every one of these writes can be made now, or is about `c` once its ack is stored, which
      is the first of them. */
  ghost predicate Ready(s: Redis, c: CommandId, xs: seq<Write>) {
    c in s.issued && forall w :: w in xs ==> Standing(s, w) || (xs[0].SetAck? && xs[0].c == c && IsAbout(s, c, w))
  }

  predicate IsAbout(s: Redis, c: CommandId, w: Write)
    requires c in s.issued
  {
    w in {XAck(s.issued[c].streamId), XDel(s.issued[c].streamId), DelEntry(c)}
  }

  lemma ReadyStays(s: Redis, t: Redis, c: CommandId, xs: seq<Write>)
    requires Evolves(s, t, {}) && Ready(s, c, xs)
    ensures Ready(t, c, xs)
  {
    hide Enabled;
    assert IssueEvolves(s, t, {}, c);
    forall w | w in xs && Standing(s, w) ensures Standing(t, w) { StandingStable(s, t, {}, w); }
  }

  lemma ReadyNext(s: Redis, c: CommandId, xs: seq<Write>)
    requires Inv(s) && Ready(s, c, xs) && xs != []
    ensures Enabled(s, xs[0]) && Ready(Apply(s, xs[0]), c, xs[1..])
  {
    hide Inv;
    assert xs[0] in xs && Standing(s, xs[0]);
    var t := Apply(s, xs[0]);
    ApplyKeepsInv(s, xs[0]);
    ApplyEvolves(s, xs[0], {});
    ReadyStays(s, t, c, xs);
    forall w | w in xs[1..] ensures Standing(t, w) {
      assert w in xs;
      if !Standing(t, w) {
        assert t.Terminated(c);
        TerminatedDiscardable(t, c);
        assert false;
      }
    }
  }

  lemma {:induction false} WovenRuns(s: Redis, c: CommandId, ws: seq<Write>, xs: seq<Write>, ys: seq<Write>)
    returns (t: Redis)
    requires Inv(s) && Ready(s, c, xs) && Ready(s, c, ys) && Woven(s, ws, xs, ys)
    ensures Runs(s, ws, t, {})
    decreases |ws|
  {
    hide Inv, Ready, Enabled, Evolves;
    t := s;
    if ws != [] {
      if xs != [] { ReadyNext(s, c, xs); }
      if ys != [] { ReadyNext(s, c, ys); }
      var next := Apply(s, ws[0]);
      ApplyKeepsInv(s, ws[0]);
      ApplyEvolves(s, ws[0], {});
      ReadyStays(s, next, c, xs);
      ReadyStays(s, next, c, ys);
      if Enabled(s, ws[0]) && Woven(next, ws[1..], xs, ys) {
        t := WovenRuns(next, c, ws[1..], xs, ys);
      } else if xs != [] && ws[0] == xs[0] && Woven(next, ws[1..], xs[1..], ys) {
        t := WovenRuns(next, c, ws[1..], xs[1..], ys);
      } else {
        t := WovenRuns(next, c, ws[1..], xs, ys[1..]);
      }
    }
  }

  lemma TerminalWritesReady(s: Redis, ack: AckMessage)
    requires ack.commandId in s.issued
    ensures Ready(s, ack.commandId, TerminalWrites(s.issued[ack.commandId].streamId, ack))
  {
  }

  /** Two handlers that both found the command complete, in whatever order their writes and
      those of others fall. */
  lemma OverlappingAcks(s: Redis, first: AckMessage, second: AckMessage, ws: seq<Write>) returns (t: Redis)
    requires Inv(s) && first.commandId == second.commandId && s.EntryVisible(first.commandId)
    requires var id := s.entries[first.commandId].streamId;
      Woven(s, ws, TerminalWrites(id, first), TerminalWrites(id, second))
    ensures Runs(s, ws, t, {})
  {
    hide Inv, Ready, Woven;
    EntryIssue(s, first.commandId);
    TerminalWritesReady(s, first);
    TerminalWritesReady(s, second);
    var id := s.entries[first.commandId].streamId;
    t := WovenRuns(s, first.commandId, ws, TerminalWrites(id, first), TerminalWrites(id, second));
  }

  lemma {:induction false} WovenPieces(s: Redis, xs: seq<Write>, ys: seq<Write>, zs: seq<Write>)
    ensures Woven(s, xs + ys + zs, xs + zs, ys)
    decreases |xs| + |ys| + |zs|
  {
    hide Apply, Enabled;
    var ws := xs + ys + zs;
    if xs != [] {
      WovenPieces(Apply(s, xs[0]), xs[1..], ys, zs);
      assert ws[1..] == xs[1..] + ys + zs && (xs + zs)[1..] == xs[1..] + zs;
    } else if ys != [] {
      WovenPieces(Apply(s, ys[0]), xs, ys[1..], zs);
      assert ws[1..] == xs + ys[1..] + zs && xs + zs == zs;
    } else if zs != [] {
      WovenPieces(Apply(s, zs[0]), xs, ys, zs[1..]);
      assert ws[1..] == xs + ys + zs[1..] && (xs + zs)[1..] == xs + zs[1..];
    }
  }

  /** From every state with an unanswered command: the second handler reads its ack record
      before the first one's writes and its entry after up to three of them, and both make
      the same command a terminal outcome. */
  lemma SecondCanGetIt(s: Redis, first: AckMessage, second: AckMessage, j: nat) returns (u: Redis, t: Redis)
    requires Inv(s) && first.commandId == second.commandId && j <= 3
    requires s.EntryVisible(first.commandId) && !s.AckVisible(first.commandId)
    ensures var id := s.entries[first.commandId].streamId;
      var w1, w2 := TerminalWrites(id, first), TerminalWrites(id, second);
      Runs(s, w1[..j], u, {}) && FindsCommand(s, u, first.commandId) && Runs(u, w2 + w1[j..], t, {})
  {
    hide Inv, Woven, Apply, Enabled, Answered;
    var c, id := first.commandId, s.entries[first.commandId].streamId;
    var w1, w2 := TerminalWrites(id, first), TerminalWrites(id, second);
    assert w1[..j] + w1[j..] == w1;
    WovenPieces(s, w1[..j], w2, w1[j..]);
    t := OverlappingAcks(s, first, second, w1[..j] + w2 + w1[j..]);
    assert w1[..j] + w2 + w1[j..] == w1[..j] + (w2 + w1[j..]);
    u := RunsSplit(s, w1[..j], w2 + w1[j..], t);
    NotAnswered(c);
    SecondGetsItIff(s, [], s, w1[..j], u, c);
    TicklessNow(s, w1[..j], u);
  }

  lemma {:induction false} RunsSplit(s: Redis, xs: seq<Write>, ys: seq<Write>, t: Redis) returns (u: Redis)
    requires Runs(s, xs + ys, t, {})
    ensures Runs(s, xs, u, {}) && Runs(u, ys, t, {})
    decreases |xs|
  {
    hide Apply, Enabled;
    if xs == [] {
      assert xs + ys == ys;
      u := s;
    } else {
      assert (xs + ys)[1..] == xs[1..] + ys;
      u := RunsSplit(Apply(s, xs[0]), xs[1..], ys, t);
    }
  }

  lemma {:induction false} TicklessNow(s: Redis, ws: seq<Write>, t: Redis)
    requires Runs(s, ws, t, {}) && forall w :: w in ws ==> !w.Tick?
    ensures t.now == s.now
    decreases |ws|
  {
    hide FirstAfter, Without, WithoutId;
    if ws != [] {
      assert ws[0] in ws;
      TicklessNow(Apply(s, ws[0]), ws[1..], t);
    }
  }
}

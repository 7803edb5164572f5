/**
 The pending list of the consumer group against the stream: when an id is pending though its
 message is gone. Such a ghost yields nothing when the list is read, and while it is the
 oldest id it hides the ones behind it.
 */
module PendingList {
  import opened Wrappers
  import opened RedisQueue
  import opened DeviceCommands
  import opened QueueProperties
  import opened Gateway
  import opened SendBudget

  predicate Ghost(s: Redis, id: StreamId) {
    id in s.pending && !HasId(s.stream, id)
  }

  ghost predicate GhostFree(s: Redis) {
    forall id :: id in s.pending ==> HasId(s.stream, id)
  }

  // ---------------------------------------------------------------- single writes

  /** What each write does to an id: deleting a pending message makes a ghost, acknowledging
      the id ends one, as would adding a message under it, and nothing else matters. */
  lemma GhostAfter(s: Redis, w: Write, id: StreamId)
    ensures Ghost(Apply(s, w), id) <==>
            if w == XDel(id) then id in s.pending
            else Ghost(s, id) && w != XAck(id) && !(w.XAdd? && w.id == id) && !(w.XAddForeign? && w.id == id)
  {
    hide FirstAfter, Without, WithoutId;
    match w
    case XAdd(at, command) => HasIdAppend(s.stream, Message(at, Some(command)), id);
    case XAddForeign(at) => HasIdAppend(s.stream, Message(at, None), id);
    case XDel(at) => HasIdWithout(s.stream, at, id);
    case _ =>
  }

  lemma HasIdAppend(stream: seq<Message>, m: Message, id: StreamId)
    ensures HasId(stream + [m], id) <==> HasId(stream, id) || m.id == id
  {
    assert m in stream + [m];
    assert forall n :: n in stream + [m] <==> n in stream || n == m;
  }

  lemma HasIdWithout(stream: seq<Message>, at: StreamId, id: StreamId)
    ensures HasId(Without(stream, at), id) <==> HasId(stream, id) && id != at
  {
  }

  /** A write leaves a list free of ghosts so exactly if it is not the deletion of a
      message that is pending. */
  lemma GhostFreeKeptIff(s: Redis, w: Write)
    requires GhostFree(s)
    ensures GhostFree(Apply(s, w)) <==> !(w.XDel? && w.id in s.pending)
  {
    hide Apply, HasId;
    forall id
      ensures id in Apply(s, w).pending && !HasId(Apply(s, w).stream, id) <==> w == XDel(id) && id in s.pending
    {
      GhostAfter(s, w, id);
    }
  }

  // ---------------------------------------------------------------- interleavings

  /** The message was deleted by the k-th write while its id was pending, and the id has not
      been acknowledged, nor used again, since. */
  ghost predicate LeftBehind(s: Redis, ws: seq<Write>, id: StreamId, k: nat) {
    && k < |ws| && ws[k] == XDel(id) && id in Reached(s, ws[..k]).pending
    && forall l :: k < l < |ws| ==> Leaves(ws[l], id)
  }

  ghost predicate Deserted(ws: seq<Write>, id: StreamId) {
    exists k: nat :: LeftBehind(EMPTY, ws, id, k)
  }

  predicate Leaves(w: Write, id: StreamId) {
    w != XAck(id) && !(w.XAdd? && w.id == id) && !(w.XAddForeign? && w.id == id)
  }

  lemma {:induction false} GhostIff(ws: seq<Write>, id: StreamId)
    ensures Ghost(Reached(EMPTY, ws), id) <==> Deserted(ws, id)
    decreases |ws|
  {
    hide Apply, Ghost;
    if ws == [] {
      NoGhostYet(id);
    } else {
      var n := |ws| - 1;
      var init, last := ws[..n], ws[n];
      var s := Reached(EMPTY, init);
      GhostIff(init, id);
      GhostAfter(s, last, id);
      LeftBehindMore(ws, id);
      GhostPending(s, id);
    }
  }

  /** When a ghost is there, for every interleaving of the writes of any operations: its
      message was deleted between a read that made the id pending and the acknowledgement
      of that id, and this acknowledgement has not come. */
  lemma GhostInRunIff(ws: seq<Write>, t: Redis, own: set<CommandId>, id: StreamId)
    requires Runs(EMPTY, ws, t, own)
    ensures Ghost(t, id) <==> Deserted(ws, id)
  {
    hide Ghost, Deserted, Runs;
    RunsReach(EMPTY, ws, t, own);
    GhostIff(ws, id);
  }

  lemma GhostPending(s: Redis, id: StreamId)
    ensures Ghost(s, id) ==> id in s.pending
  {
  }

  lemma NoGhostYet(id: StreamId)
    ensures !Ghost(EMPTY, id)
  {
  }

  lemma LeftBehindMore(ws: seq<Write>, id: StreamId)
    requires ws != []
    ensures Deserted(ws, id) <==>
            || (ws[|ws| - 1] == XDel(id) && id in Reached(EMPTY, ws[..|ws| - 1]).pending)
            || (Deserted(ws[..|ws| - 1], id) && Leaves(ws[|ws| - 1], id))
  {
    hide Reached, Leaves;
    var n := |ws| - 1;
    var init := ws[..n];
    if k: nat :| LeftBehind(EMPTY, ws, id, k) {
      if k < n {
        assert init[..k] == ws[..k];
        assert LeftBehind(EMPTY, init, id, k);
      }
    }
    if ws[n] == XDel(id) && id in Reached(EMPTY, init).pending {
      assert LeftBehind(EMPTY, ws, id, n);
    }
    if k: nat :| LeftBehind(EMPTY, init, id, k) && Leaves(ws[n], id) {
      assert init[..k] == ws[..k];
      assert LeftBehind(EMPTY, ws, id, k);
    }
  }

  // ---------------------------------------------------------------- whole operations

  lemma DiscardGhostFree(s: Redis, id: StreamId)
    requires GhostFree(s)
    ensures GhostFree(DiscardF(s, id))
  {
    hide GhostFree, Without;
    GhostFreeKeptIff(s, XAck(id));
    GhostFreeKeptIff(Apply(s, XAck(id)), XDel(id));
  }

  lemma DeleteGhostFree(s: Redis, id: StreamId, c: CommandId)
    requires GhostFree(s)
    ensures GhostFree(DeleteF(s, id, c))
  {
    hide GhostFree, DiscardF, Apply;
    DiscardGhostFree(s, id);
    var t := DiscardF(s, id);
    GhostFreeKeptIff(t, DelEntry(c));
    GhostFreeKeptIff(Apply(t, DelEntry(c)), DelRetry(c));
  }

  lemma RemoveGhostFree(s: Redis, m: Message)
    requires GhostFree(s)
    ensures GhostFree(RemoveF(s, m))
  {
    hide GhostFree, DiscardF, DeleteF, Apply;
    DiscardGhostFree(s, m.id);
    if m.body.Some? {
      GhostFreeKeptIff(s, SetAck(m.body.value.commandId, false));
      DeleteGhostFree(Apply(s, SetAck(m.body.value.commandId, false)), m.id, m.body.value.commandId);
    }
  }

  lemma {:induction false} RemoveAllGhostFree(s: Redis, ms: seq<Message>)
    requires GhostFree(s)
    ensures GhostFree(RemoveAllF(s, ms))
    decreases |ms|
  {
    hide GhostFree, RemoveF;
    if ms != [] {
      RemoveGhostFree(s, ms[0]);
      RemoveAllGhostFree(RemoveF(s, ms[0]), ms[1..]);
    }
  }

  lemma CleanupGhostFree(s: Redis)
    requires GhostFree(s)
    ensures GhostFree(CleanupF(s))
  {
    hide GhostFree, RemoveAllF, RemovablePrefix;
    RemoveAllGhostFree(s, RemovablePrefix(s.stream, s.now));
  }

  lemma ReadGhostFree(s: Redis, mode: ReadMode)
    requires GhostFree(s)
    ensures GhostFree(ReadF(s, mode).0)
  {
    hide GhostFree, CleanupF, DiscardF, DeleteF, Apply, BackedOff;
    CleanupGhostFree(s);
    var clean := CleanupF(s);
    GhostFreeKeptIff(clean, XReadNew);
    var message := if mode.Pending? then PendingHead(clean) else FirstAfter(clean.stream, clean.delivered);
    var t := if mode.Pending? then clean else Apply(clean, XReadNew);
    if message.Some? {
      DiscardGhostFree(t, message.value.id);
      if message.value.body.Some? { DeleteGhostFree(t, message.value.id, message.value.body.value.commandId); }
    }
  }

  lemma ScheduleGhostFree(s: Redis, c: CommandId)
    requires GhostFree(s)
    ensures GhostFree(ScheduleRetryF(s, c))
  {
    hide GhostFree, Apply, AttemptsOf, RetryDelayMs;
    var attempts := AttemptsOf(s, c) + 1;
    GhostFreeKeptIff(s, SetRetry(c, attempts, s.now + RetryDelayMs(attempts)));
  }

  lemma AckGhostFree(s: Redis, ack: AckMessage)
    requires GhostFree(s)
    ensures GhostFree(AckF(s, ack).0)
  {
    hide GhostFree, Apply, DeleteF, ScheduleRetryF;
    var c := ack.commandId;
    ScheduleGhostFree(s, c);
    GhostFreeKeptIff(s, SetAck(c, ack.ok));
    if s.EntryVisible(c) { DeleteGhostFree(Apply(s, SetAck(c, ack.ok)), s.entries[c].streamId, c); }
  }

  lemma PublishGhostFree(s: Redis, c: CommandId, commandType: string, payload: string, gap: nat)
    requires GhostFree(s)
    ensures GhostFree(PublishF(s, c, commandType, payload, gap))
  {
    hide GhostFree, Apply, CleanupF;
    if CanPublish(s, c, gap) {
      var added := Apply(s, XAdd(s.lastId + 1 + gap, NewCommand(s, c, commandType, payload)));
      GhostFreeKeptIff(s, XAdd(s.lastId + 1 + gap, NewCommand(s, c, commandType, payload)));
      GhostFreeKeptIff(added, SetEntry(c));
      CleanupGhostFree(Apply(added, SetEntry(c)));
    }
  }

  lemma NextGhostFree(s: Redis)
    requires GhostFree(s)
    ensures GhostFree(NextF(s).0)
  {
    hide GhostFree, ReadF;
    ReadGhostFree(s, Pending);
    ReadGhostFree(ReadF(s, Pending).0, New);
  }

  /** No whole operation leaves a ghost behind. */
  lemma StepGhostFree(n: Node, step: Step)
    requires GhostFree(n.db)
    ensures GhostFree(StepF(n, step).db)
  {
    hide GhostFree, NextF, ReadF, AckF, PublishF, ScheduleRetryF, Apply;
    match step
    case Elapse(ms) => GhostFreeKeptIff(n.db, Tick(ms));
    case Publish(c, commandType, payload, gap) => PublishGhostFree(n.db, c, commandType, payload, gap);
    case Loop(fate) =>
      var m := TimeoutF(n);
      if n.inFlight.Some? { ScheduleGhostFree(n.db, n.inFlight.value.commandId); }
      NextGhostFree(m.db);
      var (db, next) := NextF(m.db);
      if next.Some? { ScheduleGhostFree(db, next.value.commandId); }
    case Arrive(ack) => AckGhostFree(n.db, ack);
    case StaleRead => ReadGhostFree(n.db, New);
    case _ =>
  }

  lemma {:induction false} RunGhostFree(n: Node, steps: seq<Step>)
    requires GhostFree(n.db)
    ensures GhostFree(RunF(n, steps).db)
    decreases |steps|
  {
    hide GhostFree, StepF;
    if steps != [] {
      StepGhostFree(n, steps[0]);
      RunGhostFree(StepF(n, steps[0]), steps[1..]);
    }
  }

  /** The oldest pending id yields a message unless it is a ghost. */
  lemma HeadIsThere(s: Redis)
    ensures PendingHead(s).Some? <==> s.pending != [] && !Ghost(s, s.pending[0])
  {
  }

  lemma NoneAtStart()
    ensures GhostFree(EMPTY)
  {
  }

  lemma NoGhostIn(s: Redis)
    requires GhostFree(s)
    ensures forall id :: id in s.pending ==> HasId(s.stream, id)
  {
  }

  /** As long as operations do not overlap, whatever is pending can be read again: after any
      run the pending list yields its oldest command whenever there is one. */
  lemma PendingIsReadable(steps: seq<Step>)
    ensures var s := RunF(Connected(EMPTY), steps).db;
      && (forall id :: id in s.pending ==> HasId(s.stream, id))
      && (PendingHead(s).Some? <==> s.pending != [])
  {
    hide GhostFree, RunF, HasId;
    NoneAtStart();
    RunGhostFree(Connected(EMPTY), steps);
    var s := RunF(Connected(EMPTY), steps).db;
    HeadIsThere(s);
    NoGhostIn(s);
  }

  // ---------------------------------------------------------------- a stuck pending head

  const EXPIRED_COMMAND: Command := Command("a", "run.log", "{}", 0, COMMAND_TTL_MS)
  const LIVE_COMMAND: Command := Command("b", "run.log", "{}", COMMAND_TTL_MS, 2 * COMMAND_TTL_MS)

  /** A ghost takes two operations: a reader is handed an expired message between the XACK
      and the XDEL of a cleanup, and stops there. Had it gone on it would have found the
      message expired and acknowledged it, which ends the ghost. */
  lemma GhostOfExpired() returns (ws: seq<Write>, t: Redis)
    ensures Runs(EMPTY, ws, t, {}) && Inv(t) && Ghost(t, 1)
    ensures t == Redis(COMMAND_TTL_MS, [], 1, 1, [1], map[], map[], map[], map["a" := Issue(1, EXPIRED_COMMAND, false)])
    ensures Enabled(t, XAck(1)) && !Ghost(Apply(t, XAck(1)), 1)
  {
    var s1 := Apply(EMPTY, XAdd(1, EXPIRED_COMMAND));
    assert s1 == Redis(0, [Message(1, Some(EXPIRED_COMMAND))], 1, 0, [], map[], map[], map[],
                       map["a" := Issue(1, EXPIRED_COMMAND, false)]);
    var s2 := Apply(s1, Tick(COMMAND_TTL_MS));
    var s3 := Apply(s2, XAck(1));
    var s4 := Apply(s3, XReadNew);
    t := Apply(s4, XDel(1));
    assert Runs(EMPTY, [], EMPTY, {});
    RunsThen(EMPTY, [], EMPTY, XAdd(1, EXPIRED_COMMAND), {});
    RunsThen(EMPTY, [] + [XAdd(1, EXPIRED_COMMAND)], s1, Tick(COMMAND_TTL_MS), {});
    ws := [] + [XAdd(1, EXPIRED_COMMAND)] + [Tick(COMMAND_TTL_MS)];
    RunsThen(EMPTY, ws, s2, XAck(1), {});
    RunsThen(EMPTY, ws + [XAck(1)], s3, XReadNew, {});
    RunsThen(EMPTY, ws + [XAck(1)] + [XReadNew], s4, XDel(1), {});
    ws := ws + [XAck(1)] + [XReadNew] + [XDel(1)];
    RunsKeepInv(EMPTY, ws, t, {});
    GhostAfter(t, XAck(1), 1);
  }

  /** From then on reading the pending list yields nothing, though a live command behind
      the head is pending too. */
  lemma StuckPendingHead() returns (ws: seq<Write>, t: Redis)
    ensures Runs(EMPTY, ws, t, {})
    ensures 2 in t.pending && Message(2, Some(LIVE_COMMAND)) in t.stream && t.now < LIVE_COMMAND.expiresAt
    ensures ReadF(t, Pending) == (t, None)
  {
    var before, s := GhostOfExpired();
    var s1 := Apply(s, XAdd(2, LIVE_COMMAND));
    t := Apply(s1, XReadNew);
    hide Inv;
    assert s1.stream == [Message(2, Some(LIVE_COMMAND))];
    assert t.pending == [1, 2];
    RunsThen(EMPTY, before, s, XAdd(2, LIVE_COMMAND), {});
    RunsThen(EMPTY, before + [XAdd(2, LIVE_COMMAND)], s1, XReadNew, {});
    ws := before + [XAdd(2, LIVE_COMMAND)] + [XReadNew];
    hide Runs, Apply;
    assert RemovablePrefix(t.stream, t.now) == [];
    assert PendingHead(t) == None;
  }
}

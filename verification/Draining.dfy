/**
 That commands do arrive: from every node with a connection there is a way on, in which the
 socket takes what is sent and the device acknowledges it, that empties the queue and sends
 every command that outlives its backoff.
 */
module Draining {
  import opened Wrappers
  import opened RedisQueue
  import opened DeviceCommands
  import opened QueueProperties
  import opened Gateway
  import opened SendBudget
  import opened PendingList
  import opened GatewayRuns
  import opened Delivery
  import opened SendsAttained
  import opened Overtaking

  // ---------------------------------------------------------------- the pending list is in order and complete

  ghost predicate Ascending(ids: seq<StreamId>) {
    forall i, j :: 0 <= i < j < |ids| ==> ids[i] < ids[j]
  }

  /** Every message behind the cursor is pending. */
  ghost predicate Covered(s: Redis) {
    forall m :: m in s.stream && m.id <= s.delivered ==> m.id in s.pending
  }

  ghost predicate Tidy(s: Redis) {
    Ascending(s.pending) && Covered(s)
  }

  lemma AscendingBefore(id: StreamId, rest: seq<StreamId>)
    requires Ascending(rest) && forall other :: other in rest ==> id < other
    ensures Ascending([id] + rest)
  {
    assert forall i :: 0 <= i < |rest| ==> rest[i] in rest;
  }

  lemma AscendingAfter(ids: seq<StreamId>, id: StreamId)
    requires Ascending(ids) && forall other :: other in ids ==> other < id
    ensures Ascending(ids + [id])
  {
    assert forall i :: 0 <= i < |ids| ==> ids[i] in ids;
  }

  lemma AscendingRest(ids: seq<StreamId>)
    requires Ascending(ids) && ids != []
    ensures Ascending(ids[1..]) && forall other :: other in ids[1..] ==> ids[0] < other
  {
  }

  lemma {:induction false} AscendingWithout(ids: seq<StreamId>, id: StreamId)
    requires Ascending(ids)
    ensures Ascending(WithoutId(ids, id))
  {
    hide Ascending;
    if ids != [] {
      AscendingRest(ids);
      AscendingWithout(ids[1..], id);
      if ids[0] != id { AscendingBefore(ids[0], WithoutId(ids[1..], id)); }
    }
  }

  /** A message goes together with its pending id. */
  lemma DroppedTidy(s: Redis, t: Redis, id: StreamId)
    requires Tidy(s) && t.delivered == s.delivered
    requires t.stream == Without(s.stream, id) && t.pending == WithoutId(s.pending, id)
    ensures Tidy(t)
  {
    hide Without, WithoutId;
    AscendingWithout(s.pending, id);
  }

  lemma RemoveTidy(s: Redis, m: Message)
    requires Tidy(s)
    ensures Tidy(RemoveF(s, m))
  {
    hide Tidy, RemoveF, SameKeys, CleanedUp;
    RemoveKeys(s, m, "");
    RemoveFields(s, m);
    DroppedTidy(s, RemoveF(s, m), m.id);
  }

  lemma {:induction false} RemoveAllTidy(s: Redis, ms: seq<Message>)
    requires Tidy(s)
    ensures Tidy(RemoveAllF(s, ms))
    decreases |ms|
  {
    hide Tidy, RemoveF;
    if ms != [] {
      RemoveTidy(s, ms[0]);
      RemoveAllTidy(RemoveF(s, ms[0]), ms[1..]);
    }
  }

  lemma CleanupTidy(s: Redis)
    requires Tidy(s)
    ensures Tidy(CleanupF(s))
  {
    hide Tidy, RemoveAllF, RemovablePrefix;
    RemoveAllTidy(s, RemovablePrefix(s.stream, s.now));
  }

  lemma ReadNewTidy(s: Redis)
    requires Quiet(s) && Tidy(s)
    ensures Tidy(Apply(s, XReadNew))
  {
    hide Quiet, FirstAfter, Ascending;
    PendingBehind(s);
    QuietInv(s);
    InvIncreasing(s);
    FirstAfterIsFirst(s.stream, s.delivered);
    if FirstAfter(s.stream, s.delivered).Some? {
      var id := FirstAfter(s.stream, s.delivered).value.id;
      AscendingAfter(s.pending, id);
      assert id in s.pending + [id];
    }
  }

  lemma ReadTidy(s: Redis)
    requires Quiet(s) && Tidy(s)
    ensures Tidy(NextF(s).0) && Tidy(ReadF(s, New).0)
  {
    hide Quiet, Tidy, CleanupF, Apply, NextF, ReadF, Due, Spares;
    CleanupTidy(s);
    CleanupQuiet(s);
    ReadNewTidy(CleanupF(s));
    NextYields(s);
    NewReadYields(s);
    DueHasBody(CleanupF(s), PendingHead(CleanupF(s)));
  }

  lemma ScheduleTidy(s: Redis, c: CommandId)
    requires Tidy(s)
    ensures Tidy(ScheduleRetryF(s, c))
  {
    hide RetryDelayMs, AttemptsOf;
  }

  lemma AckTidy(s: Redis, ack: AckMessage)
    requires Tidy(s)
    ensures Tidy(AckF(s, ack).0)
  {
    hide Tidy, DeleteF, Apply, ScheduleRetryF, Without, WithoutId;
    var c := ack.commandId;
    ScheduleTidy(s, c);
    AckFields(s, c, ack.ok);
    if s.EntryVisible(c) {
      var id := s.entries[c].streamId;
      DeleteFields(Apply(s, SetAck(c, ack.ok)), id, c);
      DroppedTidy(s, DeleteF(Apply(s, SetAck(c, ack.ok)), id, c), id);
    }
  }

  lemma PublishTidy(s: Redis, c: CommandId, commandType: string, payload: string, gap: nat)
    requires Tidy(s) && s.delivered <= s.lastId
    ensures Tidy(PublishF(s, c, commandType, payload, gap))
  {
    hide CleanupF, Ascending;
    if CanPublish(s, c, gap) {
      var added := Apply(Apply(s, XAdd(s.lastId + 1 + gap, NewCommand(s, c, commandType, payload))), SetEntry(c));
      assert Tidy(added);
      CleanupTidy(added);
    }
  }

  lemma StepTidy(n: Node, step: Step)
    requires NodeInv(n) && Tidy(n.db)
    ensures Tidy(StepF(n, step).db)
  {
    hide NodeInv, Quiet, NextF, ReadF, AckF, PublishF, ScheduleRetryF, Ascending;
    QuietDb(n);
    match step
    case Elapse(ms) =>
    case Publish(c, commandType, payload, gap) => PublishTidy(n.db, c, commandType, payload, gap);
    case Loop(fate) =>
      hide Tidy;
      if n.inFlight.Some? { ScheduleTidy(n.db, n.inFlight.value.commandId); }
      TimeoutKeeps(n);
      QuietDb(TimeoutF(n));
      ReadTidy(TimeoutF(n).db);
      var (db, next) := NextF(TimeoutF(n).db);
      if next.Some? { ScheduleTidy(db, next.value.commandId); }
    case Arrive(ack) => AckTidy(n.db, ack);
    case StaleRead => ReadTidy(n.db);
    case _ =>
  }

  lemma {:induction false} RunTidy(n: Node, steps: seq<Step>)
    requires NodeInv(n) && Tidy(n.db)
    ensures Tidy(RunF(n, steps).db)
    decreases |steps|
  {
    hide NodeInv, Tidy, StepF;
    if steps != [] {
      StepKeeps(n, steps[0]);
      StepTidy(n, steps[0]);
      RunTidy(StepF(n, steps[0]), steps[1..]);
    }
  }

  // ---------------------------------------------------------------- the oldest live command is next

  ghost predicate Oldest(s: Redis, c: CommandId) {
    && c in s.issued && Live(s, c)
    && forall d :: d in s.issued && Live(s, d) ==> IdOf(s, c) <= IdOf(s, d)
  }

  /** The command is queued, and due before it expires. */
  ghost predicate Outlives(s: Redis, c: CommandId)
    requires c in s.issued
  {
    IsQueued(s, c) && DueAt(s, c) < s.issued[c].command.expiresAt
  }

  lemma OldestInStream(s: Redis, c: CommandId)
    requires Quiet(s) && Oldest(s, c)
    ensures var clean := CleanupF(s);
      clean.stream != [] && clean.stream[0] == Message(IdOf(s, c), Some(s.issued[c].command))
  {
    hide Quiet, CleanupF, LiveOnly, Live;
    CleanupQuiet(s);
    var clean := CleanupF(s);
    var mine := Message(IdOf(s, c), Some(s.issued[c].command));
    LiveMessage(s, c);
    assert mine in clean.stream && clean.stream[0] in clean.stream;
    QuietMessage(s, clean.stream[0]);
    QuietInv(clean);
    InvIncreasing(clean);
    var i :| 0 <= i < |clean.stream| && clean.stream[i] == mine;
    assert clean.stream[0].id <= clean.stream[i].id;
  }

  lemma LiveMessage(s: Redis, c: CommandId)
    requires c in s.issued && Live(s, c)
    ensures var m := Message(IdOf(s, c), Some(s.issued[c].command)); m in s.stream && !Removable(m, s.now)
  {
  }

  /** The next message a reader finds, be it pending or new. */
  function NextMessage(s: Redis): Option<Message> {
    if s.pending != [] then PendingHead(s) else FirstAfter(s.stream, s.delivered)
  }

  lemma FirstIsNext(s: Redis)
    requires Quiet(s) && GhostFree(s) && Tidy(s) && s.stream != []
    ensures NextMessage(s) == Some(s.stream[0])
  {
    hide Quiet, GhostFree;
    PendingBehind(s);
    NoGhostIn(s);
    QuietInv(s);
    InvIncreasing(s);
    var first := s.stream[0];
    assert first in s.stream;
    if s.pending != [] {
      var head := s.pending[0];
      assert head in s.pending;
      var m :| m in s.stream && m.id == head;
      assert first.id <= m.id;
      var i :| 0 <= i < |s.pending| && s.pending[i] == first.id;
      assert head <= s.pending[i];
    }
  }

  // ---------------------------------------------------------------- one command after the other

  ghost predicate Drainable(n: Node) {
    Sound(n) && Tidy(n.db) && n.inFlight.None?
  }

  lemma DrainableMeans(n: Node)
    requires Drainable(n)
    ensures NodeInv(n) && Quiet(n.db) && GhostFree(n.db) && Tidy(n.db) && n.running && n.inFlight.None?
  {
    QuietDb(n);
  }

  lemma DrainableStep(n: Node, step: Step)
    requires Drainable(n) && Smooth(step)
    requires StepF(n, step).inFlight.None?
    ensures Drainable(StepF(n, step))
  {
    hide NodeInv, GhostFree, Tidy, TimeoutF, NextF, AckF, Apply;
    SoundStep(n, step);
  }

  lemma SoundStep(n: Node, step: Step)
    requires Sound(n) && Tidy(n.db) && Smooth(step)
    ensures Sound(StepF(n, step)) && Tidy(StepF(n, step).db)
  {
    hide NodeInv, GhostFree, Tidy, NextF, AckF, Apply, ScheduleRetryF;
    StepKeeps(n, step);
    StepGhostFree(n, step);
    StepTidy(n, step);
  }

  /** The oldest live command is sent, once it is due, by the next iteration. */
  lemma OldestIsSent(n: Node, c: CommandId)
    requires Drainable(n) && Oldest(n.db, c) && !BackedOff(n.db, c)
    ensures var m := StepF(n, Loop(Taken));
      && m.log == n.log + [Sent(c, n.db.now)] && m.inFlight == Some(Flight(c, n.db.now))
      && m.db.stream == CleanupF(n.db).stream && m.db.issued == n.db.issued && Spares(n.db, m.db, {})
  {
    hide NodeInv, Quiet, GhostFree, Tidy, CleanupF, Spares, Live, FirstAfter, PendingHead, Due, BackedOff, NextF, Apply;
    DrainableMeans(n);
    var clean := CleanupF(n.db);
    CleanupQuiet(n.db);
    CleanupGhostFree(n.db);
    CleanupTidy(n.db);
    OldestInStream(n.db, c);
    FirstIsNext(clean);
    SparesNow(n.db, clean);
    OldestKeys(n.db, clean, c);
    SameBackoff(n.db, clean, c);
    QuietInv(n.db);
    CommandNamed(n.db, c);
    NextYields(n.db);
    NextQuiet(n.db);
    NextStream(clean);
    DueIs(clean, PendingHead(clean));
    DueIs(clean, FirstAfter(clean.stream, clean.delivered));
    NoHead(clean);
    SparesNow(n.db, NextF(n.db).0);
  }

  lemma OldestKeys(s: Redis, t: Redis, c: CommandId)
    requires c in s.issued && Live(s, c) && Spares(s, t, {})
    ensures SameKeys(s, t, c)
  {
    assert SparesOne(s, t, c, {});
  }

  lemma CommandNamed(s: Redis, c: CommandId)
    requires Inv(s) && c in s.issued
    ensures s.issued[c].command.commandId == c
  {
    assert IssueOk(s, c);
  }

  lemma NextStream(s: Redis)
    ensures Apply(s, XReadNew).stream == s.stream
  {
    hide FirstAfter;
  }

  lemma DueIs(s: Redis, m: Option<Message>)
    ensures Due(s, m) <==> m.Some? && m.value.body.Some? && !BackedOff(s, m.value.body.value.commandId)
  {
  }

  lemma NoHead(s: Redis)
    ensures s.pending == [] ==> PendingHead(s) == None
  {
  }

  /** A positive ack of a live command takes it out of the stream. */
  lemma Settled(n: Node, c: CommandId)
    requires Sound(n) && Tidy(n.db) && (n.inFlight.None? || Flying(n, c))
    requires c in n.db.issued && Live(n.db, c)
    ensures var m := StepF(n, Arrive(Positive(c)));
      && Drainable(m) && m.db.issued == n.db.issued && |m.db.stream| < |n.db.stream|
      && Spares(n.db, m.db, {c}) && forall d :: SendCount(m.log, d) == SendCount(n.log, d)
  {
    hide NodeInv, Quiet, GhostFree, Tidy, Live, SendCount, AckF, Spares;
    QuietDb(n);
    SoundStep(n, Arrive(Positive(c)));
    LiveHasEntry(n.db, c);
    LiveMessage(n.db, c);
    AckTakesOff(n.db, c);
    AckQuiet(n.db, Positive(c));
    forall d ensures SendCount(StepF(n, Arrive(Positive(c))).log, d) == SendCount(n.log, d) {
      LogAppend(n.log, Acknowledged(c), d);
      LogAppend(n.log + [Acknowledged(c)], Outcome(c), d);
    }
    assert Message(IdOf(n.db, c), Some(n.db.issued[c].command)) !in Without(n.db.stream, IdOf(n.db, c));
  }

  lemma ExpiresInOrder(s: Redis, c: CommandId, d: CommandId)
    requires Quiet(s) && Oldest(s, c) && d in s.issued && Live(s, d)
    ensures s.issued[c].command.expiresAt <= s.issued[d].command.expiresAt
  {
    hide Inv;
    InvIncreasing(s);
    var mine := Message(IdOf(s, c), Some(s.issued[c].command));
    var other := Message(IdOf(s, d), Some(s.issued[d].command));
    var i :| 0 <= i < |s.stream| && s.stream[i] == mine;
    var j :| 0 <= j < |s.stream| && s.stream[j] == other;
    assert j < i ==> s.stream[j].id < s.stream[i].id;
  }

  lemma OutlivesSpared(s: Redis, t: Redis, except: set<CommandId>, d: CommandId)
    requires Spares(s, t, except) && d in s.issued && d !in except && Outlives(s, d)
    ensures d in t.issued && Outlives(t, d)
  {
    assert SparesOne(s, t, d, except);
  }

  lemma OutlivesIsLive(s: Redis, d: CommandId)
    requires d in s.issued && Outlives(s, d)
    ensures Live(s, d)
  {
  }

  lemma OutlivesLater(s: Redis, ms: nat, d: CommandId)
    requires d in s.issued && Outlives(s, d) && s.now + ms < s.issued[d].command.expiresAt
    ensures Outlives(Apply(s, Tick(ms)), d)
  {
  }

  lemma OldestLater(s: Redis, ms: nat, c: CommandId)
    requires Oldest(s, c) && s.now + ms < s.issued[c].command.expiresAt
    ensures Oldest(Apply(s, Tick(ms)), c)
  {
  }

  /** While the oldest command waits for its backoff, nothing that outlives its own expires. */
  lemma Waited(n: Node, c: CommandId)
    requires Drainable(n) && Oldest(n.db, c) && Outlives(n.db, c)
    ensures var m := StepF(n, Elapse(DueAt(n.db, c) - n.db.now));
      && Drainable(m) && Oldest(m.db, c) && !BackedOff(m.db, c) && m == n.(db := n.db.(now := DueAt(n.db, c)))
      && forall d :: d in n.db.issued && Outlives(n.db, d) ==> Outlives(m.db, d)
  {
    hide NodeInv, Quiet, GhostFree, Tidy, Live;
    var wait := Elapse(DueAt(n.db, c) - n.db.now);
    DrainableMeans(n);
    hide Drainable;
    DrainableStep(n, wait);
    OldestLater(n.db, wait.ms, c);
    forall d | d in n.db.issued && Outlives(n.db, d) ensures Outlives(StepF(n, wait).db, d) {
      OutlivesIsLive(n.db, d);
      ExpiresInOrder(n.db, c, d);
      OutlivesLater(n.db, wait.ms, d);
    }
  }

  /** A round that settles `c`, sends it if it is due in time, and keeps the others so. */
  ghost predicate Advanced(n: Node, m: Node, c: CommandId)
    requires c in n.db.issued
  {
    && Drainable(m) && m.db.issued == n.db.issued && |m.db.stream| < |n.db.stream|
    && (forall d :: SendCount(n.log, d) <= SendCount(m.log, d))
    && (Outlives(n.db, c) ==> SendCount(n.log, c) < SendCount(m.log, c))
    && (forall d :: d in n.db.issued && d != c && Outlives(n.db, d) ==> Outlives(m.db, d))
  }

  lemma RoundLate(n: Node, c: CommandId)
    requires Drainable(n) && Oldest(n.db, c) && !Outlives(n.db, c)
    ensures Advanced(n, StepF(n, Arrive(Positive(c))), c)
  {
    hide NodeInv, Quiet, GhostFree, Tidy, Live, SendCount, Outlives, StepF;
    Settled(n, c);
    var m := StepF(n, Arrive(Positive(c)));
    hide Spares;
    forall d | d in n.db.issued && d != c && Outlives(n.db, d) ensures Outlives(m.db, d) {
      OutlivesSpared(n.db, m.db, {c}, d);
    }
  }

  lemma CleanupShorter(s: Redis)
    requires Quiet(s)
    ensures |CleanupF(s).stream| <= |s.stream|
  {
    hide Quiet, CleanupF;
    CleanupQuiet(s);
    AllLive(s.stream, s.now);
  }

  lemma RoundInTime(n: Node, c: CommandId)
    requires Drainable(n) && Oldest(n.db, c) && Outlives(n.db, c)
    ensures var steps := [Elapse(DueAt(n.db, c) - n.db.now), Loop(Taken), Arrive(Positive(c))];
      Advanced(n, RunF(n, steps), c)
  {
    hide NodeInv, Quiet, GhostFree, Tidy, Live, SendCount, Outlives, StepF, RunF, CleanupF, BackedOff, Drainable;
    var wait := Elapse(DueAt(n.db, c) - n.db.now);
    Waited(n, c);
    var n1 := StepF(n, wait);
    DrainableMeans(n1);
    OldestIsSent(n1, c);
    CleanupShorter(n1.db);
    LogAppend(n1.log, Sent(c, n1.db.now), c);
    var n2 := StepF(n1, Loop(Taken));
    SoundAfter(n1, Loop(Taken));
    LiveAfter(n1.db, n2.db, c);
    Settled(n2, c);
    var n3 := StepF(n2, Arrive(Positive(c)));
    ThreeSteps(n, wait, Loop(Taken), Arrive(Positive(c)));
    hide Spares;
    forall d ensures SendCount(n.log, d) <= SendCount(n3.log, d) { LogAppend(n1.log, Sent(c, n1.db.now), d); }
    forall d | d in n.db.issued && d != c && Outlives(n.db, d) ensures Outlives(n3.db, d) {
      OutlivesSpared(n1.db, n2.db, {}, d);
      OutlivesSpared(n2.db, n3.db, {c}, d);
    }
  }

  lemma SoundAfter(n: Node, step: Step)
    requires Drainable(n) && Smooth(step)
    ensures Sound(StepF(n, step)) && Tidy(StepF(n, step).db)
  {
    hide Sound, Tidy, StepF;
    SoundStep(n, step);
  }

  lemma LiveAfter(s: Redis, t: Redis, c: CommandId)
    requires Spares(s, t, {}) && c in s.issued && Live(s, c)
    ensures c in t.issued && Live(t, c)
  {
    assert SparesOne(s, t, c, {});
  }

  /** Without live commands an iteration empties the stream. */
  lemma NothingLeft(n: Node)
    requires Drainable(n) && forall d :: d in n.db.issued ==> !Live(n.db, d)
    ensures var m := StepF(n, Loop(Taken));
      m.db.stream == [] && m.log == n.log && m.db.issued == n.db.issued && Drainable(m)
  {
    hide NodeInv, Quiet, GhostFree, Tidy, CleanupF, Spares, Live, FirstAfter, PendingHead, Due, NextF, Apply;
    DrainableMeans(n);
    var clean := CleanupF(n.db);
    CleanupQuiet(n.db);
    if clean.stream != [] {
      assert clean.stream[0] in clean.stream;
      QuietMessage(clean, clean.stream[0]);
      SparesNow(n.db, clean);
      LiveBefore(n.db, clean, clean.stream[0].body.value.commandId);
      assert false;
    }
    NextYields(n.db);
    NextQuiet(n.db);
    NextStream(clean);
    NoMessages(clean);
    SoundAfter(n, Loop(Taken));
  }

  lemma LiveBefore(s: Redis, t: Redis, c: CommandId)
    requires Spares(s, t, {}) && c in s.issued && c in t.issued && Live(t, c)
    ensures Live(s, c)
  {
    assert SparesOne(s, t, c, {});
  }

  lemma NoMessages(s: Redis)
    requires s.stream == []
    ensures !Due(s, PendingHead(s)) && !Due(s, FirstAfter(s.stream, s.delivered))
  {
  }

  /** Among live commands one is the oldest. */
  lemma OldestExists(s: Redis, c: CommandId) returns (oldest: CommandId)
    requires Quiet(s) && c in s.issued && Live(s, c)
    ensures Oldest(s, oldest)
  {
    hide Quiet, CleanupF, LiveOnly, Live, Spares;
    CleanupQuiet(s);
    var clean := CleanupF(s);
    LiveMessage(s, c);
    SparesNow(s, clean);
    QuietInv(clean);
    InvIncreasing(clean);
    assert clean.stream != [];
    var first := clean.stream[0];
    assert first in clean.stream;
    QuietMessage(clean, first);
    oldest := first.body.value.commandId;
    LiveBefore(s, clean, oldest);
    forall d | d in s.issued && Live(s, d) ensures first.id <= IdOf(s, d) {
      LiveMessage(s, d);
      var m := Message(IdOf(s, d), Some(s.issued[d].command));
      assert m in clean.stream;
      var i :| 0 <= i < |clean.stream| && clean.stream[i] == m;
      assert first.id <= clean.stream[i].id;
    }
  }

  // ---------------------------------------------------------------- the whole queue

  ghost predicate Drained(n: Node, m: Node) {
    && m.db.stream == [] && m.db.issued == n.db.issued
    && (forall d :: SendCount(n.log, d) <= SendCount(m.log, d))
    && (forall d :: d in n.db.issued && Outlives(n.db, d) ==> SendCount(n.log, d) < SendCount(m.log, d))
  }

  lemma DrainedAfter(n: Node, m: Node, k: Node, c: CommandId)
    requires c in n.db.issued && Advanced(n, m, c) && Drained(m, k)
    ensures Drained(n, k)
  {
    hide Drainable, Outlives, SendCount;
  }

  lemma DrainedLast(n: Node, m: Node)
    requires m.db.stream == [] && m.db.issued == n.db.issued && m.log == n.log
    requires forall d :: d in n.db.issued ==> !Live(n.db, d)
    ensures Drained(n, m)
  {
    hide Live, SendCount;
    forall d | d in n.db.issued ensures !Outlives(n.db, d) {
      if Outlives(n.db, d) { OutlivesIsLive(n.db, d); }
    }
  }

  lemma Round(n: Node, c: CommandId) returns (steps: seq<Step>)
    requires Drainable(n) && Oldest(n.db, c)
    ensures Advanced(n, RunF(n, steps), c) && forall step :: step in steps ==> Smooth(step)
  {
    hide Drainable, Outlives, StepF, RunF, DueAt, Advanced;
    if Outlives(n.db, c) {
      steps := [Elapse(DueAt(n.db, c) - n.db.now), Loop(Taken), Arrive(Positive(c))];
      RoundInTime(n, c);
    } else {
      steps := [Arrive(Positive(c))];
      RoundLate(n, c);
      OneStep(n, Arrive(Positive(c)));
    }
  }

  lemma AdvancedMeans(n: Node, m: Node, c: CommandId)
    requires c in n.db.issued && Advanced(n, m, c)
    ensures Drainable(m) && |m.db.stream| < |n.db.stream|
  {
  }

  /** From the oldest to the newest: every live command is settled, after it was sent if it
      is due before it expires. */
  lemma {:induction false} Drain(n: Node) returns (steps: seq<Step>)
    requires Drainable(n)
    ensures Drained(n, RunF(n, steps)) && forall step :: step in steps ==> Smooth(step)
    decreases |n.db.stream|
  {
    hide Drainable, Quiet, Live, Outlives, StepF, RunF, Drained, Oldest, Advanced;
    DrainableMeans(n);
    if c :| c in n.db.issued && Live(n.db, c) {
      var oldest := OldestExists(n.db, c);
      OldestIssued(n.db, oldest);
      var round := Round(n, oldest);
      var m := RunF(n, round);
      AdvancedMeans(n, m, oldest);
      var more := Drain(m);
      steps := round + more;
      RunAppend(n, round, more);
      DrainedAfter(n, m, RunF(m, more), oldest);
    } else {
      NothingLeft(n);
      DrainedLast(n, StepF(n, Loop(Taken)));
      steps := [Loop(Taken)];
      OneStep(n, Loop(Taken));
    }
  }

  lemma OldestIssued(s: Redis, c: CommandId)
    requires Oldest(s, c)
    ensures c in s.issued
  {
  }

  lemma NothingYet()
    ensures Tidy(EMPTY)
  {
  }

  /** Whatever has happened, also failed sends, nacks, lost reads and closed connections: when
      the device connects, its queue can still be emptied by sending and acknowledging, with
      every command sent that is due before it expires. */
  lemma EveryQueueDrains(past: seq<Step>) returns (steps: seq<Step>)
    ensures var n := StepF(RunF(Connected(EMPTY), past), Restart); var m := RunF(n, steps);
      && m.db.stream == []
      && (forall c :: c in n.db.issued && Outlives(n.db, c) ==> SendCount(n.log, c) < SendCount(m.log, c))
    ensures forall step :: step in steps ==> Smooth(step)
  {
    hide RunF, NodeInv, Tidy, GhostFree, SendCount, Outlives;
    ConnectedInv(EMPTY);
    NothingYet();
    NoneAtStart();
    RunKeeps(Connected(EMPTY), past);
    RunTidy(Connected(EMPTY), past);
    RunGhostFree(Connected(EMPTY), past);
    var before := RunF(Connected(EMPTY), past);
    StepKeeps(before, Restart);
    StepTidy(before, Restart);
    StepGhostFree(before, Restart);
    steps := Drain(StepF(before, Restart));
  }
}

/**
 What comes of a command that is put off before its first send: from every such node there is
 a way on in which the command behind it is sent first.
 */
module Overtaking {
  import opened Wrappers
  import opened RedisQueue
  import opened DeviceCommands
  import opened QueueProperties
  import opened Gateway
  import opened SendBudget
  import opened PendingList
  import opened GatewayRuns
  import opened Delivery
  import opened SendsAttained

  function IdOf(s: Redis, c: CommandId): StreamId
    requires c in s.issued
  {
    s.issued[c].streamId
  }

  predicate NoneRemovable(s: Redis) {
    forall m :: m in s.stream ==> !Removable(m, s.now)
  }

  ghost predicate Sound(n: Node) {
    NodeInv(n) && GhostFree(n.db) && n.running
  }

  // ---------------------------------------------------------------- acks until only one is pending

  /** All that is pending besides `c` can be acknowledged. */
  ghost predicate Clearing(n: Node, c: CommandId) {
    && Sound(n) && NoneRemovable(n.db)
    && c in n.db.issued && Live(n.db, c) && IdOf(n.db, c) in n.db.pending
    && (n.inFlight.Some? ==>
          && n.inFlight.value.commandId != c
          && n.inFlight.value.commandId in n.db.issued
          && IdOf(n.db, n.inFlight.value.commandId) in n.db.pending)
  }

  /** Nothing about `c` has changed, and nothing was sent. */
  ghost predicate SameFor(n: Node, m: Node, c: CommandId)
    requires c in n.db.issued
  {
    && m.db.now == n.db.now && m.db.issued == n.db.issued && m.running == n.running
    && SameKeys(n.db, m.db, c)
    && n.log <= m.log
    && (forall d :: SendCount(m.log, d) == SendCount(n.log, d))
  }

  predicate Only(s: Redis, id: StreamId) {
    id in s.pending && forall i :: i in s.pending ==> i == id
  }

  /** A step in which all goes well: the socket takes what is sent, or a command is done. */
  predicate Smooth(step: Step) {
    match step
    case Loop(fate) => fate.Taken?
    case Arrive(ack) => ack.ok
    case Elapse(_) => true
    case _ => false
  }

  function Positive(c: CommandId): AckMessage {
    AckMessage(c, true, InternalError, None)
  }

  lemma {:induction false} WithoutIdShorter(ids: seq<StreamId>, id: StreamId)
    ensures |WithoutId(ids, id)| <= |ids|
    ensures id in ids ==> |WithoutId(ids, id)| < |ids|
  {
    if ids != [] { WithoutIdShorter(ids[1..], id); }
  }

  lemma PendingIsLive(s: Redis, id: StreamId) returns (e: CommandId)
    requires Quiet(s) && GhostFree(s) && NoneRemovable(s) && id in s.pending
    ensures e in s.issued && IdOf(s, e) == id && Live(s, e)
    ensures s.EntryVisible(e) && !s.AckVisible(e) && s.entries[e].streamId == id
  {
    hide Quiet, Live;
    NoGhostIn(s);
    var m :| m in s.stream && m.id == id;
    QuietMessage(s, m);
    e := m.body.value.commandId;
    LiveHasEntry(s, e);
  }

  /** A positive ack of a live command takes its id off the list. */
  lemma AckTakesOff(s: Redis, e: CommandId)
    requires e in s.issued && s.EntryVisible(e) && !s.AckVisible(e)
    ensures var (t, outcome) := AckF(s, Positive(e));
      && outcome.Terminal() && t.now == s.now && t.issued == s.issued
      && t.stream == Without(s.stream, s.entries[e].streamId)
      && t.pending == WithoutId(s.pending, s.entries[e].streamId)
  {
    hide Without, WithoutId, DeleteF, Apply;
    AckFields(s, e, true);
    DeleteFields(Apply(s, SetAck(e, true)), s.entries[e].streamId, e);
  }

  lemma ClearOne(n: Node, c: CommandId, e: CommandId)
    requires Clearing(n, c) && e in n.db.issued && e != c && Live(n.db, e)
    requires n.db.EntryVisible(e) && !n.db.AckVisible(e) && n.db.entries[e].streamId == IdOf(n.db, e)
    ensures Clearing(ArriveF(n, Positive(e)), c) && SameFor(n, ArriveF(n, Positive(e)), c)
    ensures ArriveF(n, Positive(e)).db.pending == WithoutId(n.db.pending, IdOf(n.db, e))
  {
    hide NodeInv, Quiet, GhostFree, AckF, SendCount;
    QuietDb(n);
    ArriveKeeps(n, Positive(e));
    AckGhostFree(n.db, Positive(e));
    AckTakesOff(n.db, e);
    AckQuiet(n.db, Positive(e));
    var t := AckF(n.db, Positive(e)).0;
    assert SparesOne(n.db, t, c, {e});
    QuietInv(n.db);
    IdsDistinct(n.db, e);
    forall d ensures SendCount(ArriveF(n, Positive(e)).log, d) == SendCount(n.log, d) {
      LogAppend(n.log, Acknowledged(e), d);
      LogAppend(n.log + [Acknowledged(e)], Outcome(e), d);
    }
  }

  lemma SameForThen(n: Node, m: Node, k: Node, c: CommandId)
    requires c in n.db.issued && SameFor(n, m, c) && SameFor(m, k, c)
    ensures SameFor(n, k, c)
  {
  }

  lemma SameForSelf(n: Node, c: CommandId)
    requires c in n.db.issued
    ensures SameFor(n, n, c)
  {
  }

  /** Acks of all other pending commands leave `c` alone on the list. */
  lemma {:induction false} ClearOthers(n: Node, c: CommandId) returns (steps: seq<Step>)
    requires Clearing(n, c)
    ensures var m := RunF(n, steps);
      && Clearing(m, c) && SameFor(n, m, c) && Only(m.db, IdOf(n.db, c)) && m.inFlight.None?
    ensures forall step :: step in steps ==> Smooth(step)
    decreases |n.db.pending|
  {
    hide NodeInv, Quiet, GhostFree, ArriveF, SameFor, Live;
    var id := IdOf(n.db, c);
    if Only(n.db, id) {
      steps := [];
      SameForSelf(n, c);
      QuietDb(n);
      QuietInv(n.db);
      IdsDistinct(n.db, c);
    } else {
      var other :| other in n.db.pending && other != id;
      QuietDb(n);
      var e := PendingIsLive(n.db, other);
      ClearOne(n, c, e);
      WithoutIdShorter(n.db.pending, other);
      var m := ArriveF(n, Positive(e));
      SameIssued(n, m, c);
      var more := ClearOthers(m, c);
      steps := [Arrive(Positive(e))] + more;
      SameForThen(n, m, RunF(m, more), c);
      assert steps[1..] == more;
    }
  }

  lemma SameIssued(n: Node, m: Node, c: CommandId)
    requires c in n.db.issued && SameFor(n, m, c)
    ensures m.db.issued == n.db.issued
  {
  }

  // ---------------------------------------------------------------- the one that is left is sent

  lemma CleanupKeepsPending(s: Redis, c: CommandId)
    requires Quiet(s) && c in s.issued && Live(s, c) && Only(s, IdOf(s, c))
    ensures var t := CleanupF(s);
      && t.now == s.now && t.issued == s.issued && c in t.issued && Live(t, c) && SameKeys(s, t, c)
      && Only(t, IdOf(s, c))
  {
    hide CleanupF, RemovablePrefix;
    var prefix := RemovablePrefix(s.stream, s.now);
    CleanupEffect(s);
    CleanupQuiet(s);
    assert SparesOne(s, CleanupF(s), c, {});
    NotRemoved(s, prefix, c);
  }

  lemma NotRemoved(s: Redis, ms: seq<Message>, c: CommandId)
    requires Quiet(s) && c in s.issued && Live(s, c)
    requires forall m :: m in ms ==> m in s.stream && Removable(m, s.now)
    ensures !HasId(ms, IdOf(s, c))
  {
    hide Quiet;
    forall m | m in ms ensures m.id != IdOf(s, c) {
      if m.id == IdOf(s, c) { OneMessage(s, m, c); }
    }
  }

  /** A message under a command's id is that command's. */
  lemma OneMessage(s: Redis, m: Message, c: CommandId)
    requires Quiet(s) && c in s.issued && m in s.stream && m.id == IdOf(s, c)
    ensures m.body == Some(s.issued[c].command) && s.issued[c].command.commandId == c
  {
    StreamIssue(s, m);
    IdsDistinct(s, c);
    assert IssueOk(s, c);
  }

  lemma AloneIsHead(s: Redis, c: CommandId)
    requires Quiet(s) && c in s.issued && Live(s, c) && Only(s, IdOf(s, c)) && !BackedOff(s, c)
    ensures PendingHead(s).Some? && PendingHead(s).value.body == Some(s.issued[c].command)
    ensures s.issued[c].command.commandId == c && Due(s, PendingHead(s))
  {
    hide Quiet, BackedOff;
    assert s.pending[0] in s.pending && s.pending[0] == IdOf(s, c);
    assert Message(s.issued[c].streamId, Some(s.issued[c].command)) in s.stream;
    OneMessage(s, PendingHead(s).value, c);
  }

  lemma SameBackoff(s: Redis, t: Redis, c: CommandId)
    requires SameKeys(s, t, c) && t.now == s.now
    ensures BackedOff(t, c) <==> BackedOff(s, c)
  {
  }

  /** An idle loop sends the only pending command once it is due. */
  lemma AloneIsSent(n: Node, c: CommandId)
    requires NodeInv(n) && n.running && n.inFlight.None?
    requires c in n.db.issued && Live(n.db, c) && Only(n.db, IdOf(n.db, c)) && !BackedOff(n.db, c)
    ensures StepF(n, Loop(Taken)).log == n.log + [Sent(c, n.db.now)] && StepF(n, Loop(Taken)).db.issued == n.db.issued
  {
    hide NodeInv, Quiet, CleanupF, NextF, Live, BackedOff, Only, Due, PendingHead;
    QuietDb(n);
    CleanupKeepsPending(n.db, c);
    CleanupQuiet(n.db);
    SameBackoff(n.db, CleanupF(n.db), c);
    AloneIsHead(CleanupF(n.db), c);
    NextYields(n.db);
  }

  // ---------------------------------------------------------------- a command that is put off

  /** When the command may be sent again. */
  function DueAt(s: Redis, c: CommandId): (at: nat)
    ensures s.now <= at
  {
    if BackedOff(s, c) then s.retries[c].availableAt else s.now
  }

  /** `c` is behind the cursor and was never sent, but will be due before it expires; the
      oldest pending command is not due, and the next new one, `d`, is. */
  ghost predicate PutOff(n: Node, c: CommandId, d: CommandId) {
    && Sound(n) && n.inFlight.None? && NoneRemovable(n.db)
    && c in n.db.issued && Live(n.db, c) && IdOf(n.db, c) in n.db.pending && SendCount(n.log, c) == 0
    && DueAt(n.db, c) < n.db.issued[c].command.expiresAt
    && d in n.db.issued && SendCount(n.log, d) == 0 && !BackedOff(n.db, d) && IdOf(n.db, c) < IdOf(n.db, d)
    && !Due(n.db, PendingHead(n.db))
    && FirstAfter(n.db.stream, n.db.delivered) == Some(Message(IdOf(n.db, d), Some(n.db.issued[d].command)))
  }

  lemma CleanAlready(s: Redis)
    requires NoneRemovable(s)
    ensures CleanupF(s) == s
  {
    CleanupNothing(s);
  }

  lemma NewReadFields(s: Redis, m: Message)
    requires FirstAfter(s.stream, s.delivered) == Some(m)
    ensures Apply(s, XReadNew) == s.(delivered := m.id, pending := s.pending + [m.id])
  {
    hide FirstAfter;
  }

  /** The next iteration sends the command behind. */
  lemma OtherIsSent(n: Node, c: CommandId, d: CommandId)
    requires PutOff(n, c, d)
    ensures var m := StepF(n, Loop(Taken));
      m == n.(db := n.db.(delivered := IdOf(n.db, d), pending := n.db.pending + [IdOf(n.db, d)]),
              inFlight := Some(Flight(d, n.db.now)), log := n.log + [Sent(d, n.db.now)])
  {
    hide NodeInv, Quiet, GhostFree, CleanupF, NextF, Live, Apply, FirstAfter, PendingHead, NoneRemovable;
    QuietDb(n);
    CleanAlready(n.db);
    NextYields(n.db);
    var m := Message(IdOf(n.db, d), Some(n.db.issued[d].command));
    NewReadFields(n.db, m);
    OneMessage(n.db, m, d);
  }

  lemma ClearingAfter(n: Node, c: CommandId, d: CommandId)
    requires PutOff(n, c, d)
    ensures Clearing(StepF(n, Loop(Taken)), c) && StepF(n, Loop(Taken)).db.issued == n.db.issued
    ensures StepF(n, Loop(Taken)).db.now == n.db.now && SameKeys(n.db, StepF(n, Loop(Taken)).db, c)
  {
    hide NodeInv, Quiet, GhostFree, FirstAfter, PendingHead, SendCount;
    OtherIsSent(n, c, d);
    hide StepF, Due, BackedOff;
    StepKeeps(n, Loop(Taken));
    StepGhostFree(n, Loop(Taken));
  }

  /** In a log where `d` was sent first and `c`, which was enqueued before it, later, the
      order is broken. */
  lemma OrderBroken(before: seq<Event>, between: seq<Event>, c: CommandId, d: CommandId, at: nat, later: nat,
                    issued: map<CommandId, Issue>)
    requires SendCount(before, d) == 0 && SendCount(before + [Sent(d, at)] + between, c) == 0
    requires c in issued && d in issued && issued[c].streamId < issued[d].streamId
    ensures !FirstSendsOrdered(before + [Sent(d, at)] + between + [Sent(c, later)], issued)
  {
    hide SendCount;
    var log := before + [Sent(d, at)] + between + [Sent(c, later)];
    assert log[..|before|] == before && log[..|log| - 1] == before + [Sent(d, at)] + between;
    assert FirstSend(log, |before|) && FirstSend(log, |log| - 1);
  }

  lemma WaitForIt(n: Node, c: CommandId)
    requires Clearing(n, c) && Only(n.db, IdOf(n.db, c)) && n.inFlight.None?
    requires DueAt(n.db, c) < n.db.issued[c].command.expiresAt
    ensures var m := StepF(n, Elapse(DueAt(n.db, c) - n.db.now));
      && NodeInv(m) && m.running && m.inFlight.None? && m.log == n.log && m.db.issued == n.db.issued
      && Live(m.db, c) && Only(m.db, IdOf(m.db, c)) && !BackedOff(m.db, c)
  {
    hide NodeInv, GhostFree;
    StepKeeps(n, Elapse(DueAt(n.db, c) - n.db.now));
  }

  lemma SameDueAt(s: Redis, t: Redis, c: CommandId)
    requires SameKeys(s, t, c) && t.now == s.now
    ensures DueAt(t, c) == DueAt(s, c)
  {
  }

  lemma SameForMeans(n: Node, m: Node, c: CommandId)
    requires c in n.db.issued && SameFor(n, m, c)
    ensures m.db.now == n.db.now && m.db.issued == n.db.issued && SameKeys(n.db, m.db, c)
    ensures n.log <= m.log && SendCount(m.log, c) == SendCount(n.log, c)
  {
  }

  lemma {:induction false} RunThen(n: Node, x: Step, xs: seq<Step>, y: Step, z: Step)
    ensures RunF(n, [x] + xs + [y, z]) == StepF(StepF(RunF(StepF(n, x), xs), y), z)
  {
    hide StepF;
    RunAppend(n, [x] + xs, [y, z]);
    assert ([x] + xs)[1..] == xs;
    TwoSteps(RunF(n, [x] + xs), y, z);
  }

  /** A command that is put off before its first send can be overtaken, from every such node:
      the one behind it is sent, whatever else is pending is acknowledged, and when its
      backoff is over it is sent for the first time itself. */
  lemma PutOffIsOvertaken(n: Node, c: CommandId, d: CommandId) returns (steps: seq<Step>)
    requires PutOff(n, c, d)
    ensures var m := RunF(n, steps); !FirstSendsOrdered(m.log, m.db.issued)
    ensures forall step :: step in steps ==> Smooth(step)
  {
    hide NodeInv, Sound, StepF, RunF, Live, BackedOff, Due, SendCount, FirstSendsOrdered, Only, Clearing, SameFor;
    OtherIsSent(n, c, d);
    ClearingAfter(n, c, d);
    var n1 := StepF(n, Loop(Taken));
    var acks := ClearOthers(n1, c);
    var n2 := RunF(n1, acks);
    SameForMeans(n1, n2, c);
    SameDueAt(n.db, n1.db, c);
    SameDueAt(n1.db, n2.db, c);
    var wait := Elapse(DueAt(n2.db, c) - n2.db.now);
    WaitForIt(n2, c);
    var n3 := StepF(n2, wait);
    AloneIsSent(n3, c);
    var between := n2.log[|n1.log|..];
    assert n2.log == n.log + [Sent(d, n.db.now)] + between;
    LogAppend(n.log, Sent(d, n.db.now), c);
    OrderBroken(n.log, between, c, d, n.db.now, n3.db.now, n.db.issued);
    steps := [Loop(Taken)] + acks + [wait, Loop(Taken)];
    RunThen(n, Loop(Taken), acks, wait, Loop(Taken));
  }

  // ---------------------------------------------------------------- how it comes to that

  /** The list gets an id at its end; if that one is not due or is not alone, the oldest command
      is still not due. */
  lemma HeadStaysUndue(s: Redis, u: Redis, id: StreamId)
    requires u.pending == s.pending + [id] && u.stream == s.stream
    requires !Due(s, PendingHead(s)) && (s.pending == [] ==> !Due(u, Lookup(u.stream, id)))
    requires forall e :: BackedOff(s, e) ==> BackedOff(u, e)
    ensures !Due(u, PendingHead(u))
  {
    hide BackedOff;
    assert s.pending != [] ==> u.pending[0] == s.pending[0];
  }

  lemma NextIsUnsent(n: Node, t: Redis, m: Message, c: CommandId) returns (d: CommandId)
    requires Quiet(t) && FirstAfter(t.stream, t.delivered) == Some(m)
    requires c in t.issued && IdOf(t, c) <= t.delivered
    requires forall e :: e in t.issued && e != c ==> CursorOk(t, n.log, e)
    requires !Removable(m, t.now)
    ensures d in t.issued && d != c && m == Message(IdOf(t, d), Some(t.issued[d].command))
    ensures SendCount(n.log, d) == 0 && d !in t.retries && IdOf(t, c) < IdOf(t, d)
  {
    hide Quiet, SendCount;
    QuietMessage(t, m);
    d := m.body.value.commandId;
    OneMessage(t, m, d);
    assert CursorOk(t, n.log, d);
  }

  lemma JustPutOff(s: Redis, c: CommandId)
    requires Quiet(s) && c in s.issued && c !in s.retries
    ensures var u := ScheduleRetryF(s, c);
      && u == s.(retries := s.retries[c := RetryRecord(1, s.now + RETRY_BASE_DELAY_MS, s.now + COMMAND_TTL_MS)])
      && BackedOff(u, c) && DueAt(u, c) == s.now + RETRY_BASE_DELAY_MS
  {
    hide Quiet;
    assert AttemptsOf(s, c) == 0 && RetryDelayMs(1) == RETRY_BASE_DELAY_MS;
  }

  lemma LookupMine(s: Redis, c: CommandId)
    requires Quiet(s) && c in s.issued && IsQueued(s, c)
    ensures var m := Lookup(s.stream, IdOf(s, c));
      m.Some? && m.value.body.Some? && m.value.body.value.commandId == c
  {
    hide Quiet;
    assert Message(s.issued[c].streamId, Some(s.issued[c].command)) in s.stream;
    OneMessage(s, Lookup(s.stream, IdOf(s, c)).value, c);
  }

  /** The cursor has just moved to `c`, and `c` is backing off, or is pending behind a command
      that is: it is put off. */
  lemma PassedOver(n: Node, clean: Redis, c: CommandId, m: Message) returns (d: CommandId)
    requires Sound(n) && n.inFlight.None? && c in n.db.issued && Live(n.db, c) && SendCount(n.log, c) == 0
    requires NoneRemovable(n.db) && (clean.pending == [] ==> BackedOff(n.db, c))
    requires DueAt(n.db, c) < n.db.issued[c].command.expiresAt
    requires n.db.delivered == IdOf(n.db, c)
    requires n.db.pending == clean.pending + [IdOf(n.db, c)] && n.db.stream == clean.stream
    requires !Due(clean, PendingHead(clean)) && forall e :: BackedOff(clean, e) ==> BackedOff(n.db, e)
    requires FirstAfter(n.db.stream, n.db.delivered) == Some(m)
    requires forall e :: e in n.db.issued && e != c ==> CursorOk(n.db, n.log, e)
    ensures PutOff(n, c, d)
  {
    hide NodeInv, Quiet, GhostFree, SendCount, CursorOk, FirstAfter;
    QuietDb(n);
    d := NextIsUnsent(n, n.db, m, c);
    LookupMine(n.db, c);
    HeadStaysUndue(clean, n.db, IdOf(n.db, c));
  }

  /** What a read of new messages hands out, if it was never sent: the cursor moves to it, and
      no other command behind the cursor waits for its first send. */
  ghost predicate MovedOn(n: Node, t: Redis, command: Command) {
    var clean, c := CleanupF(n.db), command.commandId;
    && t == Apply(clean, XReadNew)
    && Quiet(t) && c in t.issued && t.issued[c].command == command && Live(t, c) && c !in t.retries
    && FirstAfter(clean.stream, clean.delivered) == Some(Message(IdOf(t, c), Some(t.issued[c].command)))
    && t.delivered == IdOf(t, c) && t.issued == n.db.issued && t.now == clean.now == n.db.now
    && (forall e :: e in t.issued && e != c ==> CursorOk(t, n.log, e))
  }

  lemma TakenIsNew(n: Node)
    requires CursorInv(n) && FirstSendTaken(n)
    ensures MovedOn(n, ReadF(n.db, New).0, ReadF(n.db, New).1.value)
  {
    hide NodeInv, SendCount, Live, FirstSendsOrdered, ReadF, Spares, Quiet, CleanupF, BackedOff, FirstAfter,
      PendingHead, Apply, CursorOk, Due;
    QuietDb(n);
    ReadQuiet(n.db, New);
    var clean, t, r := CleanupF(n.db), ReadF(n.db, New).0, ReadF(n.db, New).1;
    var c := r.value.commandId;
    CleanupQuiet(n.db);
    SparesNow(n.db, clean);
    SparesNow(n.db, t);
    CursorSpared(n, clean, {});
    DueHasBody(clean, FirstAfter(clean.stream, clean.delivered));
    NewReadYields(n.db);
    NewReadYields(clean);
    CleanAgain(n.db);
    ReadNewQuiet(clean);
    NewCursor(clean);
    NewReadMoves(clean);
    var moved :| moved in t.issued && MovedTo(clean, t, moved) && HandedOut(t, moved, r);
    QuietInv(t);
    CursorMoved(clean, t, n.log, c);
  }

  /** A first send comes from the read of new messages. */
  lemma FirstSendIsNew(n: Node)
    requires CursorInv(n) && n.inFlight.None? && FirstSendDue(n)
    ensures !Due(CleanupF(n.db), PendingHead(CleanupF(n.db))) && NextF(n.db) == ReadF(n.db, New)
    ensures MovedOn(n, NextF(n.db).0, NextF(n.db).1.value)
  {
    hide NodeInv, SendCount, FirstSendsOrdered, ReadF, Spares, Quiet, CleanupF, FirstAfter, PendingHead, NextF, Apply,
      CursorOk, Due, MovedOn;
    QuietDb(n);
    var clean := CleanupF(n.db);
    CleanupQuiet(n.db);
    SparesNow(n.db, clean);
    CursorSpared(n, clean, {});
    NextYields(n.db);
    NewReadYields(n.db);
    DueHasBody(clean, PendingHead(clean));
    DueHasBody(clean, FirstAfter(clean.stream, clean.delivered));
    HeadWasSent(n.log, clean);
    TakenIsNew(n);
  }

  lemma HeadWasSent(log: seq<Event>, s: Redis)
    requires Quiet(s) && (forall m :: m in s.stream ==> !Removable(m, s.now))
    requires forall e :: e in s.issued ==> CursorOk(s, log, e)
    ensures Due(s, PendingHead(s)) ==> 0 < SendCount(log, PendingHead(s).value.body.value.commandId)
  {
    hide Quiet, SendCount, BackedOff;
    PendingBehind(s);
    if Due(s, PendingHead(s)) {
      QuietMessage(s, PendingHead(s).value);
      assert s.pending[0] in s.pending;
      assert CursorOk(s, log, PendingHead(s).value.body.value.commandId);
    }
  }

  lemma SameStream(s: Redis, u: Redis)
    requires (forall m :: m in s.stream ==> !Removable(m, s.now)) && u.stream == s.stream && u.now == s.now
    ensures NoneRemovable(u)
  {
  }

  lemma SameCursors(s: Redis, u: Redis, log: seq<Event>, c: CommandId)
    requires (forall e :: e in s.issued && e != c ==> CursorOk(s, log, e)) && u == s.(retries := u.retries)
    requires forall e :: e != c && e in u.retries ==> e in s.retries
    ensures forall e :: e in u.issued && e != c ==> CursorOk(u, log, e)
  {
    hide SendCount;
    forall e | e in u.issued && e != c ensures CursorOk(u, log, e) { assert CursorOk(s, log, e); }
  }

  lemma BackoffStays(s: Redis, u: Redis, c: CommandId)
    requires BackedOff(u, c) && u.now == s.now
    requires forall e :: e != c && e in s.retries ==> e in u.retries && u.retries[e] == s.retries[e]
    ensures forall e :: BackedOff(s, e) ==> BackedOff(u, e)
  {
  }

  /** A socket that fails at a first send puts that command off, if it lives beyond its
      backoff and there is a command behind it. */
  lemma FailedFirstSendPutsOff(n: Node) returns (c: CommandId, d: CommandId)
    requires CursorInv(n) && GhostFree(n.db) && Overtakes(n, Loop(Refused))
    requires var next := NextF(TimeoutF(n).db);
      && n.db.now + RETRY_BASE_DELAY_MS < next.1.value.expiresAt
      && FirstAfter(next.0.stream, next.0.delivered).Some?
    ensures PutOff(StepF(StepF(n, Loop(Refused)), Restart), c, d)
  {
    hide CursorInv, TimeoutF, NodeInv, Quiet, GhostFree, SendCount, FirstSendsOrdered, NextF, Spares, CleanupF,
      BackedOff, ScheduleRetryF, Live, CursorOk, FirstAfter, PendingHead, Due, NoneRemovable, Apply, FirstSendDue;
    var m := TimeoutF(n);
    InvOf(n);
    CursorTimeout(n);
    InvOf(m);
    SameLog(n);
    SameNow(n);
    SentNever(m);
    FirstSendIsNew(m);
    var clean, t := CleanupF(m.db), NextF(m.db).0;
    c := NextF(m.db).1.value.commandId;
    QuietDb(m);
    CleanupQuiet(m.db);
    NewReadFields(clean, Message(IdOf(t, c), Some(t.issued[c].command)));
    JustPutOff(t, c);
    var lost := StepF(n, Loop(Refused));
    var after := StepF(lost, Restart);
    StepKeeps(n, Loop(Refused));
    StepKeeps(lost, Restart);
    StepGhostFree(n, Loop(Refused));
    StepGhostFree(lost, Restart);
    SameStream(clean, after.db);
    RetryPutsOff(t, c);
    CursorNote(t, n.log, Interrupted);
    SameCursors(t, after.db, after.log, c);
    BackoffStays(clean, after.db, c);
    d := PassedOver(after, clean, c, FirstAfter(t.stream, t.delivered).value);
  }

  /** A command that was read when the connection was gone is put off if another one is pending
      before it and one is queued behind it. */
  lemma GonePutsOff(n: Node) returns (c: CommandId, d: CommandId)
    requires CursorInv(n) && GhostFree(n.db) && Overtakes(n, Loop(Gone)) && CleanupF(TimeoutF(n).db).pending != []
    requires var t := NextF(TimeoutF(n).db).0; FirstAfter(t.stream, t.delivered).Some?
    ensures PutOff(StepF(StepF(n, Loop(Gone)), Restart), c, d)
  {
    hide NodeInv, Quiet, GhostFree, SendCount, FirstSendsOrdered, NextF, CleanupF, Live, CursorOk, FirstAfter,
      PendingHead, Due, NoneRemovable, Apply, FirstSendDue, CursorInv, TimeoutF, MovedOn;
    var m := TimeoutF(n);
    InvOf(n);
    CursorTimeout(n);
    InvOf(m);
    SameLog(n);
    SentNever(m);
    FirstSendIsNew(m);
    c := NextF(m.db).1.value.commandId;
    var lost := StepF(n, Loop(Gone));
    var after := StepF(lost, Restart);
    StepKeeps(n, Loop(Gone));
    StepKeeps(lost, Restart);
    StepGhostFree(n, Loop(Gone));
    StepGhostFree(lost, Restart);
    CursorNote(after.db, n.log, Interrupted);
    d := BehindAnother(m, after, NextF(m.db).1.value);
  }

  lemma InvOf(n: Node)
    requires CursorInv(n)
    ensures NodeInv(n)
  {
  }

  lemma SameNow(n: Node)
    ensures TimeoutF(n).db.now == n.db.now
  {
    if n.inFlight.Some? { RetryFields(n.db, n.inFlight.value.commandId); }
  }

  lemma SameLog(n: Node)
    ensures TimeoutF(n).log == n.log
  {
  }

  /** The cursor has moved to a command nobody was sent, behind one that is backing off. */
  lemma BehindAnother(n: Node, after: Node, command: Command) returns (d: CommandId)
    requires NodeInv(n) && MovedOn(n, after.db, command) && Sound(after) && after.inFlight.None?
    requires var clean := CleanupF(n.db); clean.pending != [] && !Due(clean, PendingHead(clean))
    requires SendCount(after.log, command.commandId) == 0 && FirstAfter(after.db.stream, after.db.delivered).Some?
    requires forall e :: e in after.db.issued && CursorOk(after.db, n.log, e) ==> CursorOk(after.db, after.log, e)
    ensures PutOff(after, command.commandId, d)
  {
    hide NodeInv, Quiet, GhostFree, SendCount, CleanupF, CursorOk, FirstAfter, PendingHead, Due, NoneRemovable, Sound;
    var c, clean := command.commandId, CleanupF(n.db);
    QuietDb(n);
    CleanupQuiet(n.db);
    NewReadFields(clean, Message(IdOf(after.db, c), Some(command)));
    SameStream(clean, after.db);
    hide Live, Apply;
    d := PassedOver(after, clean, c, FirstAfter(after.db.stream, after.db.delivered).value);
  }

  /** And so is one that a stale read takes. */
  lemma StaleReadPutsOff(n: Node) returns (c: CommandId, d: CommandId)
    requires CursorInv(n) && GhostFree(n.db) && n.running && n.inFlight.None? && Overtakes(n, StaleRead)
    requires var clean := CleanupF(n.db); clean.pending != [] && !Due(clean, PendingHead(clean))
    requires var t := ReadF(n.db, New).0; FirstAfter(t.stream, t.delivered).Some?
    ensures PutOff(StepF(n, StaleRead), c, d)
  {
    hide NodeInv, Quiet, GhostFree, SendCount, FirstSendsOrdered, CleanupF, Live, CursorOk, FirstAfter, PendingHead,
      Due, NoneRemovable, Apply, CursorInv, MovedOn, ReadF;
    InvOf(n);
    TakenIsNew(n);
    c := ReadF(n.db, New).1.value.commandId;
    StepKeeps(n, StaleRead);
    StepGhostFree(n, StaleRead);
    d := BehindAnother(n, StepF(n, StaleRead), ReadF(n.db, New).1.value);
  }

  lemma SentNever(n: Node)
    requires FirstSendDue(n)
    ensures NextF(n.db).1.Some? && SendCount(n.log, NextF(n.db).1.value.commandId) == 0
  {
  }

  lemma SparedCursors(s: Redis, u: Redis, log: seq<Event>, c: CommandId)
    requires Spares(s, u, {}) && u.issued == s.issued && u.delivered == s.delivered
    requires forall e :: e in s.issued && e != c ==> CursorOk(s, log, e)
    ensures forall e :: e in u.issued && e != c ==> CursorOk(u, log, e)
  {
    hide SendCount;
    forall e | e in u.issued && e != c ensures CursorOk(u, log, e) {
      assert CursorOk(s, log, e) && SparesOne(s, u, e, {});
    }
  }

  lemma MovedPast(s: Redis, t: Redis, log: seq<Event>, c: CommandId)
    requires Inv(t) && Spares(s, t, {}) && t.issued == s.issued && c in t.issued && MovedTo(s, t, c)
    requires forall e :: e in s.issued && e != c ==> CursorOk(s, log, e)
    ensures forall e :: e in t.issued && e != c ==> CursorOk(t, log, e)
  {
    IdsDistinct(t, c);
    hide Inv, SendCount;
    forall e | e in t.issued && e != c ensures CursorOk(t, log, e) {
      assert CursorOk(s, log, e);
      LiveSpared(s, t, e);
    }
  }

  lemma MovesTo(s: Redis, c: CommandId)
    requires Quiet(s) && NoneRemovable(s) && c in s.issued && FirstAfter(s.stream, s.delivered).Some?
    requires FirstAfter(s.stream, s.delivered).value.id == IdOf(s, c)
    ensures var t := Apply(s, XReadNew);
      && Quiet(t) && Spares(s, t, {}) && t.issued == s.issued && t.delivered == IdOf(s, c) && MovedTo(s, t, c)
      && t.pending == s.pending + [IdOf(s, c)] && t.retries == s.retries && t.stream == s.stream && t.now == s.now
  {
    hide Quiet, FirstAfter, CleanupF, Spares, NoneRemovable, Live;
    CleanAlready(s);
    ReadNewQuiet(s);
    NewReadYields(s);
    NewCursor(s);
    NewReadMoves(s);
    NewReadFields(s, FirstAfter(s.stream, s.delivered).value);
    var t := Apply(s, XReadNew);
    var moved :| moved in t.issued && MovedTo(s, t, moved);
    QuietInv(t);
    IdsDistinct(t, c);
  }

  /** A retry asked for a command before it was sent puts it off, if it is the next one, lives
      beyond its backoff, and there is a command behind it. */
  lemma EarlyNackPutsOff(n: Node, ack: AckMessage) returns (d: CommandId)
    requires CursorInv(n) && GhostFree(n.db) && n.running && n.inFlight.None? && Overtakes(n, Arrive(ack))
    requires var clean := CleanupF(AckF(n.db, ack).0); var t, c := Apply(clean, XReadNew), ack.commandId;
      && n.db.now + RETRY_BASE_DELAY_MS < n.db.issued[c].command.expiresAt
      && !Due(clean, PendingHead(clean))
      && FirstAfter(clean.stream, clean.delivered).Some?
      && FirstAfter(clean.stream, clean.delivered).value.id == IdOf(n.db, c)
      && FirstAfter(t.stream, t.delivered).Some?
    ensures PutOff(StepF(StepF(n, Arrive(ack)), Loop(Taken)), ack.commandId, d)
  {
    hide NodeInv, Quiet, GhostFree, SendCount, FirstSendsOrdered, NextF, Spares, CleanupF, BackedOff, ScheduleRetryF,
      CursorOk, FirstAfter, PendingHead, Due, NoneRemovable, Apply, AckF, Live;
    var c := ack.commandId;
    QuietDb(n);
    AckQuiet(n.db, ack);
    UnsentHasNoRetry(n.db, n.log, c);
    JustPutOff(n.db, c);
    RetryPutsOff(n.db, c);
    var s1 := AckF(n.db, ack).0;
    var clean := CleanupF(s1);
    CleanupQuiet(s1);
    SparesNow(s1, clean);
    SameStream(clean, clean);
    KeptPutOff(s1, clean, c);
    MovesTo(clean, c);
    var t := Apply(clean, XReadNew);
    KeptPutOff(clean, t, c);
    NextYields(s1);
    MineIsNotDue(clean, c, FirstAfter(clean.stream, clean.delivered));
    var nacked := StepF(n, Arrive(ack));
    var after := StepF(nacked, Loop(Taken));
    assert n.log + [Acknowledged(c)] + [] == n.log + [Acknowledged(c)];
    assert after == nacked.(db := t) && nacked.log == n.log + [Acknowledged(c)];
    StepKeeps(n, Arrive(ack));
    StepKeeps(nacked, Loop(Taken));
    StepGhostFree(n, Arrive(ack));
    StepGhostFree(nacked, Loop(Taken));
    CursorNote(n.db, n.log, Acknowledged(c));
    SameCursors(n.db, s1, after.log, c);
    SparedCursors(s1, clean, after.log, c);
    QuietInv(t);
    MovedPast(clean, t, after.log, c);
    SameStream(clean, t);
    BackoffStays(clean, t, c);
    d := PassedOver(after, clean, c, FirstAfter(t.stream, t.delivered).value);
  }

  lemma UnsentHasNoRetry(s: Redis, log: seq<Event>, c: CommandId)
    requires c in s.issued && CursorOk(s, log, c) && Live(s, c) && SendCount(log, c) == 0
    ensures c !in s.retries
  {
  }

  /** What spares a live command that is backing off leaves it so. */
  lemma KeptPutOff(s: Redis, u: Redis, c: CommandId)
    requires Spares(s, u, {}) && u.now == s.now && c in s.issued && Live(s, c) && BackedOff(s, c)
    ensures c in u.issued && u.issued[c] == s.issued[c] && Live(u, c) && BackedOff(u, c)
    ensures u.retries[c] == s.retries[c]
  {
    assert SparesOne(s, u, c, {});
  }

  lemma MineIsNotDue(s: Redis, c: CommandId, m: Option<Message>)
    requires Quiet(s) && c in s.issued && BackedOff(s, c) && m.Some? && m.value in s.stream && m.value.id == IdOf(s, c)
    ensures !Due(s, m)
  {
    hide Quiet, BackedOff;
    OneMessage(s, m.value, c);
  }

  // ---------------------------------------------------------------- the two ways to lose the order

  /** The nodes the two lemmas below start from: all that runs in order lead to. */
  lemma InOrderNode(steps: seq<Step>)
    requires NoneOvertaken(Connected(EMPTY), steps)
    ensures CursorInv(RunF(Connected(EMPTY), steps)) && GhostFree(RunF(Connected(EMPTY), steps).db)
  {
    hide RunF, NoneOvertaken;
    StartCursor();
    NoneAtStart();
    CursorRun(Connected(EMPTY), steps);
    RunGhostFree(Connected(EMPTY), steps);
  }

  lemma TwoThen(n: Node, x: Step, y: Step, more: seq<Step>)
    ensures RunF(n, [x, y] + more) == RunF(StepF(StepF(n, x), y), more)
  {
    hide StepF;
    RunAppend(n, [x, y], more);
    TwoSteps(n, x, y);
  }

  /** From every node in order: when the socket fails at a first send, and that command lives
      beyond its backoff and another one is queued behind it, the order can be lost. */
  lemma FailedFirstSendLosesOrder(n: Node) returns (steps: seq<Step>)
    requires CursorInv(n) && GhostFree(n.db) && Overtakes(n, Loop(Refused))
    requires var next := NextF(TimeoutF(n).db);
      && n.db.now + RETRY_BASE_DELAY_MS < next.1.value.expiresAt
      && FirstAfter(next.0.stream, next.0.delivered).Some?
    ensures var m := RunF(n, [Loop(Refused), Restart] + steps); !FirstSendsOrdered(m.log, m.db.issued)
    ensures forall step :: step in steps ==> Smooth(step)
  {
    hide CursorInv, StepF, RunF, PutOff, FirstSendsOrdered, NextF, FirstAfter;
    var c, d := FailedFirstSendPutsOff(n);
    steps := PutOffIsOvertaken(StepF(StepF(n, Loop(Refused)), Restart), c, d);
    TwoThen(n, Loop(Refused), Restart, steps);
  }

  /** And when a retry is asked for the next command before it was sent. */
  lemma EarlyNackLosesOrder(n: Node, ack: AckMessage) returns (steps: seq<Step>)
    requires CursorInv(n) && GhostFree(n.db) && n.running && n.inFlight.None? && Overtakes(n, Arrive(ack))
    requires var clean := CleanupF(AckF(n.db, ack).0); var t, c := Apply(clean, XReadNew), ack.commandId;
      && n.db.now + RETRY_BASE_DELAY_MS < n.db.issued[c].command.expiresAt
      && !Due(clean, PendingHead(clean))
      && FirstAfter(clean.stream, clean.delivered).Some?
      && FirstAfter(clean.stream, clean.delivered).value.id == IdOf(n.db, c)
      && FirstAfter(t.stream, t.delivered).Some?
    ensures var m := RunF(n, [Arrive(ack), Loop(Taken)] + steps); !FirstSendsOrdered(m.log, m.db.issued)
    ensures forall step :: step in steps ==> Smooth(step)
  {
    hide CursorInv, StepF, RunF, PutOff, FirstSendsOrdered, FirstAfter, CleanupF, AckF, Apply, PendingHead, Due;
    var d := EarlyNackPutsOff(n, ack);
    steps := PutOffIsOvertaken(StepF(StepF(n, Arrive(ack)), Loop(Taken)), ack.commandId, d);
    TwoThen(n, Arrive(ack), Loop(Taken), steps);
  }

  /** When the connection is gone by the time a command that was never sent has been read, one
      is pending before it and another queued behind it, the order can be lost: no send failed,
      and nothing unsent was nacked. */
  lemma GoneLosesOrder(n: Node) returns (steps: seq<Step>)
    requires CursorInv(n) && GhostFree(n.db) && Overtakes(n, Loop(Gone)) && CleanupF(TimeoutF(n).db).pending != []
    requires var t := NextF(TimeoutF(n).db).0; FirstAfter(t.stream, t.delivered).Some?
    ensures var m := RunF(n, [Loop(Gone), Restart] + steps); !FirstSendsOrdered(m.log, m.db.issued)
    ensures forall step :: step in steps ==> Smooth(step)
  {
    hide CursorInv, StepF, RunF, PutOff, FirstSendsOrdered, NextF, FirstAfter, CleanupF;
    var c, d := GonePutsOff(n);
    steps := PutOffIsOvertaken(StepF(StepF(n, Loop(Gone)), Restart), c, d);
    TwoThen(n, Loop(Gone), Restart, steps);
  }

  /** And when a read that an old loop left behind takes such a command. */
  lemma StaleReadLosesOrder(n: Node) returns (steps: seq<Step>)
    requires CursorInv(n) && GhostFree(n.db) && n.running && n.inFlight.None? && Overtakes(n, StaleRead)
    requires var clean := CleanupF(n.db); clean.pending != [] && !Due(clean, PendingHead(clean))
    requires var t := ReadF(n.db, New).0; FirstAfter(t.stream, t.delivered).Some?
    ensures var m := RunF(n, [StaleRead] + steps); !FirstSendsOrdered(m.log, m.db.issued)
    ensures forall step :: step in steps ==> Smooth(step)
  {
    hide CursorInv, StepF, RunF, PutOff, FirstSendsOrdered, ReadF, FirstAfter, CleanupF, PendingHead, Due;
    var c, d := StaleReadPutsOff(n);
    steps := PutOffIsOvertaken(StepF(n, StaleRead), c, d);
    OneThen(n, StaleRead, steps);
  }

  lemma OneThen(n: Node, x: Step, more: seq<Step>)
    ensures RunF(n, [x] + more) == RunF(StepF(n, x), more)
  {
    hide StepF;
    assert ([x] + more)[1..] == more;
  }

  lemma BothQueued()
    ensures var start := [Publish("a", "run.log", "{}", 0), Publish("b", "run.log", "{}", 0)];
      RunF(Connected(EMPTY), start) == Connected(QUEUED) && NoneOvertaken(Connected(EMPTY), start)
  {
    hide StepF;
    QueueBoth();
    var x, y := Publish("a", "run.log", "{}", 0), Publish("b", "run.log", "{}", 0);
    TwoSteps(Connected(EMPTY), x, y);
    assert [x, y][1..] == [y] && [y][1..] == [];
    assert NoneOvertaken(StepF(Connected(EMPTY), x), [y]);
  }

  lemma NackOfQueued()
    ensures Overtakes(Connected(QUEUED), Arrive(BUSY))
    ensures var s := AckF(QUEUED, BUSY).0; var t := Apply(s, XReadNew);
      && CleanupF(s) == s && PendingHead(s) == None
      && FirstAfter(s.stream, s.delivered) == Some(BOTH[0]) && FirstAfter(t.stream, t.delivered) == Some(BOTH[1])
  {
    hide CleanupF;
    var s := AckF(QUEUED, BUSY).0;
    assert RetryDelayMs(1) == 2000 && AttemptsOf(QUEUED, "a") == 0;
    assert s == QUEUED.(retries := map["a" := RetryRecord(1, 2000, COMMAND_TTL_MS)]);
    NoCleanup(s);
    assert BOTH[1..] == [BOTH[1]];
    assert FirstAfter(BOTH[1..], 1) == Some(BOTH[1]);
  }

  /** A run in which a device that asks for a retry of a command it was not yet sent makes the
      next one go first. */
  lemma EarlyNackOvertakes() returns (steps: seq<Step>)
    ensures var n := RunF(Connected(EMPTY), steps); !FirstSendsOrdered(n.log, n.db.issued)
  {
    hide RunF, StepF, NoneOvertaken, CursorInv, GhostFree, FirstSendsOrdered, CleanupF, AckF, Apply, Overtakes,
      FirstAfter, PendingHead;
    var start := [Publish("a", "run.log", "{}", 0), Publish("b", "run.log", "{}", 0)];
    BothQueued();
    InOrderNode(start);
    NackOfQueued();
    var more := EarlyNackLosesOrder(Connected(QUEUED), BUSY);
    steps := start + ([Arrive(BUSY), Loop(Taken)] + more);
    RunAppend(Connected(EMPTY), start, [Arrive(BUSY), Loop(Taken)] + more);
  }

  // ---------------------------------------------------------------- a connection that goes during a read

  const COMMAND_C: Command := Command("c", "run.log", "{}", 0, COMMAND_TTL_MS)

  const QUEUED3: Redis :=
    QUEUED.(stream := BOTH + [Message(3, Some(COMMAND_C))], lastId := 3,
            entries := QUEUED.entries["c" := EntryRecord(3, COMMAND_C, COMMAND_TTL_MS)],
            issued := QUEUED.issued["c" := Issue(3, COMMAND_C, true)])

  /** The first of three was sent, and its device was busy. */
  const NACKED3: Node :=
    Node(QUEUED3.(delivered := 1, pending := [1], retries := map["a" := RetryRecord(1, 2000, COMMAND_TTL_MS)]),
         true, None, [Sent("a", 0), Acknowledged("a")])

  const START3: seq<Step> := [Publish("c", "run.log", "{}", 0), Loop(Taken), Arrive(BUSY)]

  lemma QueueThird()
    ensures StepF(Connected(QUEUED), START3[0]) == Connected(QUEUED3)
  {
    hide CleanupF;
    var s := Apply(Apply(QUEUED, XAdd(3, COMMAND_C)), SetEntry("c"));
    NoCleanup(s);
    assert s == QUEUED3;
  }

  lemma SendAndNack()
    ensures var n := StepF(Connected(QUEUED3), Loop(Taken));
      StepF(n, Arrive(BUSY)) == NACKED3 && !Overtakes(n, Arrive(BUSY))
  {
    hide CleanupF;
    NoCleanup(QUEUED3);
    assert QUEUED3.stream[0] == BOTH[0];
    assert ReadF(QUEUED3, Pending) == (QUEUED3, None);
    assert FirstAfter(QUEUED3.stream, 0) == Some(BOTH[0]);
    var t := Apply(QUEUED3, XReadNew);
    assert t == QUEUED3.(delivered := 1, pending := [1]);
    assert ReadF(QUEUED3, New) == (t, Some(COMMAND_A));
    var n := StepF(Connected(QUEUED3), Loop(Taken));
    assert n == Node(t, true, Some(Flight("a", 0)), [Sent("a", 0)]);
    assert RetryDelayMs(1) == 2000 && AttemptsOf(t, "a") == 0;
    assert ScheduleRetryF(t, "a") == NACKED3.db;
    LogAppend([], Sent("a", 0), "a");
    assert [Sent("a", 0)] + [Acknowledged("a")] + [] == NACKED3.log;
  }

  lemma GoneAtSecond()
    ensures Overtakes(NACKED3, Loop(Gone)) && CleanupF(TimeoutF(NACKED3).db).pending != []
    ensures var t := NextF(TimeoutF(NACKED3).db).0; FirstAfter(t.stream, t.delivered).Some?
  {
    hide CleanupF;
    var s := NACKED3.db;
    NoCleanup(s);
    assert s.stream[0] == BOTH[0] && s.stream[1..] == [BOTH[1], Message(3, Some(COMMAND_C))];
    assert PendingHead(s) == Some(BOTH[0]) && BackedOff(s, "a");
    assert ReadF(s, Pending) == (s, None);
    assert FirstAfter(s.stream[1..], 1) == Some(BOTH[1]);
    assert FirstAfter(s.stream, 1) == Some(BOTH[1]);
    var t := Apply(s, XReadNew);
    assert ReadF(s, New) == (t, Some(COMMAND_B));
    LogAppend([], Sent("a", 0), "b");
    LogAppend([Sent("a", 0)], Acknowledged("a"), "b");
    assert [] + [Sent("a", 0)] == [Sent("a", 0)] && [Sent("a", 0)] + [Acknowledged("a")] == NACKED3.log;
    assert Message(3, Some(COMMAND_C)) == s.stream[1..][1..][0];
    assert FirstAfter(s.stream[1..][1..], 2) == Some(Message(3, Some(COMMAND_C)));
  }

  lemma ThirdInOrder()
    ensures var start := [Publish("a", "run.log", "{}", 0), Publish("b", "run.log", "{}", 0)] + START3;
      RunF(Connected(EMPTY), start) == NACKED3 && NoneOvertaken(Connected(EMPTY), start)
  {
    hide StepF;
    QueueBoth();
    QueueThird();
    SendAndNack();
    var x, y := Publish("a", "run.log", "{}", 0), Publish("b", "run.log", "{}", 0);
    var n2, n3 := Connected(QUEUED3), StepF(Connected(QUEUED3), Loop(Taken));
    TwoSteps(Connected(EMPTY), x, y);
    ThreeSteps(Connected(QUEUED), START3[0], Loop(Taken), Arrive(BUSY));
    RunAppend(Connected(EMPTY), [x, y], START3);
    assert ([x, y] + START3)[1..] == [y] + START3 && ([y] + START3)[1..] == START3;
    assert START3[1..] == [Loop(Taken), Arrive(BUSY)] && [Loop(Taken), Arrive(BUSY)][1..] == [Arrive(BUSY)];
    assert NoneOvertaken(n3, [Arrive(BUSY)]);
    assert NoneOvertaken(n2, START3[1..]);
    assert NoneOvertaken(Connected(QUEUED), START3);
    assert NoneOvertaken(StepF(Connected(EMPTY), x), [y] + START3);
  }

  /** A run without a failed send, in which only a command that was sent is nacked: the
      connection closes while the next one is being read. */
  lemma ClosedReadOvertakes() returns (steps: seq<Step>)
    ensures var n := RunF(Connected(EMPTY), steps); !FirstSendsOrdered(n.log, n.db.issued)
    ensures forall step :: step in steps ==>
      Smooth(step) || step.Publish? || step == Arrive(BUSY) || step == Loop(Gone) || step == Restart
  {
    hide RunF, StepF, NoneOvertaken, CursorInv, GhostFree, FirstSendsOrdered, CleanupF, NextF, Overtakes, FirstAfter,
      TimeoutF;
    var start := [Publish("a", "run.log", "{}", 0), Publish("b", "run.log", "{}", 0)] + START3;
    ThirdInOrder();
    InOrderNode(start);
    GoneAtSecond();
    var more := GoneLosesOrder(NACKED3);
    steps := start + ([Loop(Gone), Restart] + more);
    RunAppend(Connected(EMPTY), start, [Loop(Gone), Restart] + more);
  }
}

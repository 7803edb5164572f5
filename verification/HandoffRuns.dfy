/** Whole runs of the desktop sign-in store: where a handoff comes from, and that it is used once. */
module HandoffRuns {
  import opened DesktopAuth
  import opened Wrappers

  datatype Event =
    | Start(start: StartInput, attemptId: string, clock: Clock)
    | Issue(issue: IssueInput, token: string, clock: Clock)
    | Consume(consume: ConsumeInput, clock: Clock)
    | Prune(clock: Clock)

  function Step(s: Store, event: Event): Store {
    match event
    case Start(input, attemptId, clock) => StartF(s, input, attemptId, clock)
    case Issue(input, token, clock) => IssueF(s, input, token, clock).0
    case Consume(input, clock) => ConsumeF(s, input, clock).0
    case Prune(clock) => Pruned(s, clock.prune)
  }

  function Run(events: seq<Event>): Store {
    if events == [] then Store(map[], map[]) else Step(Run(events[..|events| - 1]), events[|events| - 1])
  }

  /** The clock reads positive times and never goes back. */
  predicate Timely(events: seq<Event>) {
    && (forall i :: 0 <= i < |events| ==>
          0 < events[i].clock.prune <= events[i].clock.check <= events[i].clock.stamp)
    && (forall i, j :: 0 <= i < j < |events| ==> events[i].clock.stamp <= events[j].clock.prune)
  }

  /** No token is created twice. */
  predicate FreshTokens(events: seq<Event>) {
    forall i, j :: 0 <= i < j < |events| && events[i].Issue? && events[j].Issue? ==> events[i].token != events[j].token
  }

  predicate Regular(events: seq<Event>) {
    Timely(events) && FreshTokens(events)
  }

  // ---------------------------------------------------------------- what happened when

  predicate IssuedAt(events: seq<Event>, j: nat, token: string) {
    j < |events| && events[j].Issue? && events[j].token == token
    && IssueF(Run(events[..j]), events[j].issue, token, events[j].clock).1.Issued?
  }

  predicate IssuesAt(events: seq<Event>, j: nat) {
    j < |events| && events[j].Issue? && IssuedAt(events, j, events[j].token)
  }

  predicate SpentAt(events: seq<Event>, k: nat, token: string) {
    k < |events| && events[k].Consume? && events[k].consume.token == token
    && ConsumeF(Run(events[..k]), events[k].consume, events[k].clock).1.Consumed?
  }

  ghost predicate Spent(events: seq<Event>, token: string) {
    exists k: nat :: SpentAt(events, k, token)
  }

  /** The attempt that the issue at `j` was for. */
  function AttemptOf(events: seq<Event>, j: nat): Attempt
    requires IssuesAt(events, j)
  {
    Pruned(Run(events[..j]), events[j].clock.prune).attempts[events[j].issue.attemptId]
  }

  /** The handoff that the issue at `j` stored. */
  function HandoffOf(events: seq<Event>, j: nat): Handoff
    requires IssuesAt(events, j)
  {
    NewHandoff(AttemptOf(events, j), events[j].issue, events[j].clock.stamp)
  }

  predicate StartedAt(events: seq<Event>, i: nat, attemptId: string, attempt: Attempt) {
    && i < |events| && events[i].Start? && events[i].attemptId == attemptId
    && attempt == NewAttempt(events[i].start, events[i].clock.stamp)
  }

  // ---------------------------------------------------------------- provenance

  /** Every stored attempt was started, as it is stored. */
  lemma {:induction false} AttemptsWereStarted(events: seq<Event>, attemptId: string)
    requires attemptId in Run(events).attempts
    ensures exists i: nat :: StartedAt(events, i, attemptId, Run(events).attempts[attemptId])
    decreases |events|
  {
    var init, last := events[..|events| - 1], events[|events| - 1];
    var attempt := Run(events).attempts[attemptId];
    if last.Start? && last.attemptId == attemptId {
      assert StartedAt(events, |events| - 1, attemptId, attempt);
    } else {
      AttemptsWereStarted(init, attemptId);
      var i: nat :| StartedAt(init, i, attemptId, attempt);
      assert StartedAt(events, i, attemptId, attempt);
    }
  }

  lemma PrefixIssued(events: seq<Event>, j: nat, token: string)
    requires |events| > 0 && IssuedAt(events[..|events| - 1], j, token)
    ensures IssuedAt(events, j, token)
  {
    assert events[..|events| - 1][..j] == events[..j];
  }

  /** Every stored handoff was issued. */
  lemma {:induction false} HandoffsWereIssued(events: seq<Event>, d: Digest)
    requires d in Run(events).handoffs
    ensures exists j: nat :: IssuedAt(events, j, d.of)
    decreases |events|
  {
    var init, last := events[..|events| - 1], events[|events| - 1];
    if last.Issue? && last.token == d.of && IssueF(Run(init), last.issue, last.token, last.clock).1.Issued? {
      assert IssuedAt(events, |events| - 1, d.of);
    } else {
      HandoffsWereIssued(init, d);
      var j: nat :| IssuedAt(init, j, d.of);
      PrefixIssued(events, j, d.of);
    }
  }

  // ---------------------------------------------------------------- what an issue returns

  function Max(x: int, y: int): int {
    if x < y then y else x
  }

  function Min(x: int, y: int): int {
    if x < y then x else y
  }

  /** The last start of an attempt under this id. */
  ghost predicate LastStart(events: seq<Event>, i: nat, attemptId: string) {
    && i < |events| && events[i].Start? && events[i].attemptId == attemptId
    && forall k :: i < k < |events| && events[k].Start? ==> events[k].attemptId != attemptId
  }

  predicate AttemptLife(s: Store, attemptId: string, attempt: Attempt, now: int) {
    if attemptId in s.attempts then s.attempts[attemptId] == attempt else attempt.expiresAt <= now
  }

  lemma AttemptGoesOn(s: Store, attemptId: string, attempt: Attempt, before: int, event: Event)
    requires AttemptLife(s, attemptId, attempt, before)
    requires before <= event.clock.prune <= event.clock.check <= event.clock.stamp
    requires event.Start? ==> event.attemptId != attemptId
    ensures AttemptLife(Step(s, event), attemptId, attempt, event.clock.stamp)
  {
    hide KeptHandoffs, NewHandoff, NewAttempt;
  }

  /** An attempt is stored as it was started, and is gone only after it has expired. */
  lemma {:induction false} TrackAttempt(events: seq<Event>, i: nat, attemptId: string)
    requires Timely(events) && LastStart(events, i, attemptId)
    ensures AttemptLife(Run(events), attemptId, NewAttempt(events[i].start, events[i].clock.stamp),
                        events[|events| - 1].clock.stamp)
    decreases |events|
  {
    hide NewAttempt, Pruned;
    var init, last := events[..|events| - 1], events[|events| - 1];
    if i < |init| {
      assert forall k :: 0 <= k < |init| ==> init[k] == events[k];
      hide Step;
      TrackAttempt(init, i, attemptId);
      assert events[|events| - 2].clock.stamp <= last.clock.prune;
      AttemptGoesOn(Run(init), attemptId, NewAttempt(events[i].start, events[i].clock.stamp),
                    init[|init| - 1].clock.stamp, last);
    }
  }

  lemma LastOne(events: seq<Event>, event: Event)
    ensures var all := events + [event]; all[|events|] == event && forall k :: 0 <= k < |events| ==> all[k] == events[k]
  {
  }

  /** Exactly when an attempt can be issued a handoff, over any run: until its own time, counted
      from its last start, is over. After that it is reported as expired once it is found so,
      and as unknown from the next pruning on. */
  lemma IssuedIff(events: seq<Event>, i: nat, input: IssueInput, token: string, clock: Clock)
    requires Timely(events + [Issue(input, token, clock)]) && LastStart(events, i, input.attemptId)
    ensures var r := IssueF(Run(events), input, token, clock).1;
      var ttlMs := events[i].start.ttlMs;
      var until := events[i].clock.stamp + Max(1, if ttlMs.Some? then ttlMs.value else 600_000);
      && (r.Issued? <==> clock.check < until)
      && (r.AttemptExpired? <==> clock.prune < until <= clock.check)
      && (r.AttemptNotFound? <==> until <= clock.prune)
  {
    hide Run;
    LastOne(events, Issue(input, token, clock));
    var all := events + [Issue(input, token, clock)];
    assert all[|events| - 1].clock.stamp <= all[|events|].clock.prune <= all[|events|].clock.check;
    assert forall j, k :: 0 <= j < k < |events| ==> all[j].clock.stamp <= all[k].clock.prune;
    TrackAttempt(events, i, input.attemptId);
  }

  /** Without a start there is no attempt. */
  lemma OnlyStartedAreIssued(events: seq<Event>, input: IssueInput, token: string, clock: Clock)
    requires forall i :: 0 <= i < |events| && events[i].Start? ==> events[i].attemptId != input.attemptId
    ensures IssueF(Run(events), input, token, clock).1 == AttemptNotFound
  {
    hide Run;
    if input.attemptId in Run(events).attempts {
      AttemptsWereStarted(events, input.attemptId);
      assert false;
    }
  }

  /** What an issue that succeeds returns: of an earlier start under that attempt id the
      callback address, the state and the device, and the user, the token and the time of
      this request. */
  lemma IssueReturns(events: seq<Event>, input: IssueInput, token: string, clock: Clock) returns (i: nat)
    requires IssueF(Run(events), input, token, clock).1.Issued?
    ensures i < |events| && events[i].Start? && events[i].attemptId == input.attemptId
    ensures var started, r := events[i].start, IssueF(Run(events), input, token, clock).1;
      && r.attemptId == input.attemptId && r.token == token && r.userId == input.userId
      && r.callbackUrl == started.callbackUrl && r.state == started.state && r.deviceId == started.deviceId
      && r.expiresAt ==
         clock.stamp + Min(120_000, Max(1, if input.ttlMs.Some? then input.ttlMs.value else 120_000))
      && clock.check < events[i].clock.stamp + Max(1, if started.ttlMs.Some? then started.ttlMs.value else 600_000)
  {
    hide Run;
    AttemptsWereStarted(events, input.attemptId);
    i :| StartedAt(events, i, input.attemptId, Run(events).attempts[input.attemptId]);
  }

  // ---------------------------------------------------------------- the life of a handoff

  /** The handoff issued at `j` is stored as issued, marked once it is spent, and is gone
      only after it has expired. */
  ghost predicate Tracked(events: seq<Event>, j: nat, now: int)
    requires IssuesAt(events, j)
  {
    var d, handoff := Digest(events[j].token), HandoffOf(events, j);
    && (d in Run(events).handoffs ==>
          && Run(events).handoffs[d].(consumedAt := None) == handoff
          && (Run(events).handoffs[d].Consumed() <==> Spent(events, d.of)))
    && (d !in Run(events).handoffs ==> handoff.expiresAt <= now)
  }

  lemma SpentWasIssued(events: seq<Event>, k: nat, token: string) returns (j: nat)
    requires SpentAt(events, k, token)
    ensures j < k < |events| && events[j].Issue? && events[j].token == token
  {
    HandoffsWereIssued(events[..k], Digest(token));
    j :| IssuedAt(events[..k], j, token);
  }

  lemma NotSpentBefore(events: seq<Event>, token: string)
    requires Regular(events) && |events| > 0 && events[|events| - 1].Issue? && events[|events| - 1].token == token
    ensures !Spent(events, token)
  {
    hide Run;
    if Spent(events, token) {
      var k: nat :| SpentAt(events, k, token);
      var j := SpentWasIssued(events, k, token);
      assert false;
    }
  }

  lemma SpentOneMore(events: seq<Event>, token: string)
    requires |events| > 0
    ensures Spent(events, token) <==> Spent(events[..|events| - 1], token) || SpentAt(events, |events| - 1, token)
  {
    var init := events[..|events| - 1];
    if Spent(events, token) {
      var k: nat :| SpentAt(events, k, token);
      if k < |init| {
        assert init[..k] == events[..k];
        assert SpentAt(init, k, token);
      }
    }
    if Spent(init, token) {
      var k: nat :| SpentAt(init, k, token);
      assert init[..k] == events[..k];
      assert SpentAt(events, k, token);
    }
  }

  /** One step of a handoff's life. */
  predicate Life(s: Store, d: Digest, handoff: Handoff, now: int, spent: bool) {
    if d in s.handoffs then s.handoffs[d].(consumedAt := None) == handoff && (s.handoffs[d].Consumed() <==> spent)
    else handoff.expiresAt <= now
  }

  lemma LifeGoesOn(s: Store, d: Digest, handoff: Handoff, before: int, spent: bool, event: Event)
    requires Life(s, d, handoff, before, spent)
    requires 0 < event.clock.prune <= event.clock.check <= event.clock.stamp && before <= event.clock.prune
    requires event.Issue? ==> event.token != d.of
    ensures
      var spentNow :=
        event.Consume? && event.consume.token == d.of && ConsumeF(s, event.consume, event.clock).1.Consumed?;
      Life(Step(s, event), d, handoff, event.clock.stamp, spent || spentNow)
  {
  }

  lemma {:induction false} TrackHandoff(events: seq<Event>, j: nat)
    requires Regular(events) && IssuesAt(events, j)
    ensures Tracked(events, j, events[|events| - 1].clock.stamp)
    decreases |events|
  {
    hide Step, ConsumeF, IssueF, NewHandoff, Pruned;
    var init, last, token := events[..|events| - 1], events[|events| - 1], events[j].token;
    if j == |events| - 1 {
      NotSpentBefore(events, token);
      JustIssued(Run(init), last.issue, token, last.clock);
      assert Step(Run(init), last) == IssueF(Run(init), last.issue, token, last.clock).0 by {
        StepIssue(Run(init), last);
      }
    } else {
      assert init[..j] == events[..j] && init[j] == events[j];
      assert Regular(init);
      TrackHandoff(init, j);
      SpentOneMore(events, token);
      LifeGoesOn(Run(init), Digest(token), HandoffOf(init, j), init[|init| - 1].clock.stamp, Spent(init, token), last);
    }
  }

  lemma StepIssue(s: Store, event: Event)
    requires event.Issue?
    ensures Step(s, event) == IssueF(s, event.issue, event.token, event.clock).0
  {
  }

  lemma JustIssued(s: Store, input: IssueInput, token: string, clock: Clock)
    requires IssueF(s, input, token, clock).1.Issued?
    ensures input.attemptId in Pruned(s, clock.prune).attempts
    ensures Digest(token) in IssueF(s, input, token, clock).0.handoffs
    ensures IssueF(s, input, token, clock).0.handoffs[Digest(token)] ==
            NewHandoff(Pruned(s, clock.prune).attempts[input.attemptId], input, clock.stamp)
    ensures IssueF(s, input, token, clock).0.handoffs[Digest(token)].consumedAt.None?
  {
  }

  // ---------------------------------------------------------------- one-time handoff

  /** The request gives the device, state and nonce that the handoff's attempt was started with. */
  predicate Matches(handoff: Handoff, input: ConsumeInput) {
    handoff.deviceId == input.deviceId && handoff.stateHash == Digest(input.state)
      && handoff.nonceHash == Digest(input.nonce)
  }

  /** The handoff of an issue, field by field, from the start of its attempt. */
  lemma HandoffIs(events: seq<Event>, j: nat) returns (i: nat)
    requires IssuesAt(events, j)
    ensures i < j && events[i].Start? && events[i].attemptId == events[j].issue.attemptId
    ensures var handoff, started, issued := HandoffOf(events, j), events[i].start, events[j].issue;
      && handoff.attemptId == issued.attemptId && handoff.userId == issued.userId
      && handoff.deviceId == started.deviceId && handoff.callbackUrl == started.callbackUrl
      && handoff.state == started.state == handoff.stateHash.of && handoff.nonceHash.of == started.nonce
      && handoff.expiresAt == events[j].clock.stamp
                              + Min(120_000, Max(1, if issued.ttlMs.Some? then issued.ttlMs.value else 120_000))
      && handoff.consumedAt.None?
  {
    hide Run;
    var before := events[..j];
    AttemptsWereStarted(before, events[j].issue.attemptId);
    i :| StartedAt(before, i, events[j].issue.attemptId, Run(before).attempts[events[j].issue.attemptId]);
    assert events[i] == before[i];
  }

  /** Exactly when a token is accepted: it was issued, has not expired, comes with the right
      device, state and nonce, and has not been accepted before. */
  lemma AcceptedIff(events: seq<Event>, j: nat, input: ConsumeInput, clock: Clock)
    requires Regular(events + [Consume(input, clock)])
    requires IssuedAt(events, j, input.token)
    ensures ConsumeF(Run(events), input, clock).1.Consumed? <==>
            clock.check < HandoffOf(events, j).expiresAt && Matches(HandoffOf(events, j), input)
              && !Spent(events, input.token)
    ensures ConsumeF(Run(events), input, clock).1.Consumed? ==>
            ConsumeF(Run(events), input, clock).1 ==
            Consumed(HandoffOf(events, j).attemptId, HandoffOf(events, j).userId, HandoffOf(events, j).deviceId)
  {
    hide Run, IssueF;
    RegularPrefix(events, Consume(input, clock));
    TrackHandoff(events, j);
  }

  lemma RegularPrefix(events: seq<Event>, event: Event)
    requires Regular(events + [event])
    ensures Regular(events) && 0 < event.clock.prune <= event.clock.check
    ensures events != [] ==> events[|events| - 1].clock.stamp <= event.clock.prune
  {
    var all := events + [event];
    assert all[|events|] == event;
    forall i | 0 <= i < |events| ensures all[i] == events[i] {}
  }

  /** Why a token is refused: before it expires exactly by the first of four checks that fails,
      and after that as expired or unknown. */
  lemma RefusedBecause(events: seq<Event>, j: nat, input: ConsumeInput, clock: Clock)
    requires Regular(events + [Consume(input, clock)])
    requires IssuedAt(events, j, input.token)
    ensures var handoff, r := HandoffOf(events, j), ConsumeF(Run(events), input, clock).1;
      if handoff.expiresAt <= clock.check then r == HandoffExpired || r == HandoffNotFound
      else if Spent(events, input.token) then r == HandoffAlreadyUsed
      else if handoff.deviceId != input.deviceId then r == DeviceMismatch
      else if handoff.stateHash.of != input.state then r == StateMismatch
      else if handoff.nonceHash.of != input.nonce then r == NonceMismatch
      else r.Consumed?
  {
    hide Run, IssueF;
    RegularPrefix(events, Consume(input, clock));
    TrackHandoff(events, j);
  }

  /** What an issue does: an attempt that it finds expired is gone, one it finds alive stays for
      the next issue, and nothing but the new handoff is stored. */
  lemma IssueLeaves(s: Store, input: IssueInput, token: string, clock: Clock)
    ensures var kept, (t, r) := Pruned(s, clock.prune), IssueF(s, input, token, clock);
      var id, d := input.attemptId, Digest(token);
      && (forall other :: other != id ==>
            && (other in t.attempts <==> other in kept.attempts)
            && (other in kept.attempts ==> t.attempts[other] == kept.attempts[other]))
      && (id in t.attempts <==> r.Issued?) && (r.Issued? ==> t.attempts == kept.attempts)
      && (forall other :: other != d ==>
            && (other in t.handoffs <==> other in kept.handoffs)
            && (other in kept.handoffs ==> t.handoffs[other] == kept.handoffs[other]))
      && (!r.Issued? ==> t.handoffs == kept.handoffs)
      && (r.Issued? ==> d in t.handoffs && !t.handoffs[d].Consumed() && t.handoffs[d].expiresAt == r.expiresAt)
  {
    hide Pruned, HandoffTtl;
  }

  /** What a consumption does to its own handoff, and to no other. */
  lemma ConsumeLeaves(s: Store, input: ConsumeInput, clock: Clock)
    ensures var kept, (t, r) := Pruned(s, clock.prune), ConsumeF(s, input, clock);
      var d := Digest(input.token);
      && t.attempts == kept.attempts
      && (forall other :: other != d ==>
            && (other in t.handoffs <==> other in kept.handoffs)
            && (other in kept.handoffs ==> t.handoffs[other] == kept.handoffs[other]))
      && (d in t.handoffs <==> r != HandoffNotFound && r != HandoffExpired)
      && (d in t.handoffs ==>
            d in kept.handoffs
            && t.handoffs[d] ==
               if r.Consumed? then kept.handoffs[d].(consumedAt := Some(clock.stamp)) else kept.handoffs[d])
  {
    hide Pruned;
  }

  /** A token that was never issued is never accepted. */
  lemma OnlyIssuedAreAccepted(events: seq<Event>, input: ConsumeInput, clock: Clock)
    requires ConsumeF(Run(events), input, clock).1.Consumed?
    ensures exists j: nat :: IssuedAt(events, j, input.token)
  {
    HandoffsWereIssued(events, Digest(input.token));
  }

  lemma PrefixRegular(events: seq<Event>, n: nat)
    requires Regular(events) && n <= |events|
    ensures Regular(events[..n])
  {
  }

  /** No token is accepted twice. */
  lemma AcceptedOnce(events: seq<Event>, k: nat, l: nat, token: string)
    requires Regular(events) && SpentAt(events, k, token) && SpentAt(events, l, token)
    ensures k == l
  {
    if k != l {
      NotTwice(events, if k < l then k else l, if k < l then l else k, token);
      assert false;
    }
  }

  lemma NotTwice(events: seq<Event>, k: nat, l: nat, token: string)
    requires Regular(events) && k < l && SpentAt(events, k, token)
    ensures !SpentAt(events, l, token)
  {
    hide Run, ConsumeF, IssueF;
    if SpentAt(events, l, token) {
      var before := events[..l];
      var input, clock := events[l].consume, events[l].clock;
      OnlyIssuedAreAccepted(before, input, clock);
      var j: nat :| IssuedAt(before, j, token);
      PrefixRegular(events, l + 1);
      assert before + [Consume(input, clock)] == events[..l + 1];
      assert before[..k] == events[..k] && before[k] == events[k];
      assert SpentAt(before, k, token);
      AcceptedIff(before, j, input, clock);
      assert false;
    }
  }

  /** What an accepted token proves: the attempt it is for was started by that device with
      that state and nonce, the returned user was issued the token for it before the attempt
      expired, and that was less than two minutes ago. */
  lemma AcceptedMeans(events: seq<Event>, input: ConsumeInput, clock: Clock) returns (i: nat, j: nat)
    requires Regular(events + [Consume(input, clock)])
    requires ConsumeF(Run(events), input, clock).1.Consumed?
    ensures i < j < |events| && events[i].Start? && IssuedAt(events, j, input.token)
    ensures var started, issued, accepted := events[i].start, events[j].issue, ConsumeF(Run(events), input, clock).1;
      && started.deviceId == input.deviceId == accepted.deviceId
      && started.state == input.state && started.nonce == input.nonce
      && events[i].attemptId == issued.attemptId == accepted.attemptId
      && issued.userId == accepted.userId
      && events[j].clock.check <
         events[i].clock.stamp + Max(1, if started.ttlMs.Some? then started.ttlMs.value else 600_000)
      && clock.check - events[j].clock.stamp < 120_000
  {
    hide Run, ConsumeF;
    OnlyIssuedAreAccepted(events, input, clock);
    j :| IssuedAt(events, j, input.token);
    AcceptedIff(events, j, input, clock);
    var before := events[..j];
    JustIssued(Run(before), events[j].issue, input.token, events[j].clock);
    AttemptsWereStarted(before, events[j].issue.attemptId);
    i :| StartedAt(before, i, events[j].issue.attemptId, Run(before).attempts[events[j].issue.attemptId]);
    assert events[i] == before[i];
  }

  /** Why the clock has to be positive: a repeated request is refused exactly because the
      time of the first one is not zero. */
  lemma RepeatAcceptedIff(s: Store, input: ConsumeInput, clock: Clock)
    requires ConsumeF(s, input, clock).1.Consumed?
    ensures ConsumeF(ConsumeF(s, input, clock).0, input, clock).1.Consumed? <==> clock.stamp == 0
  {
  }
}

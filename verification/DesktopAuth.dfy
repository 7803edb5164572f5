/**
 The store behind signing in a desktop device through the browser: the device starts an
 attempt, the signed-in user's browser is issued a handoff token for it, and the device
 consumes the token once.
 */
module DesktopAuth {
  import opened Wrappers

  /** A collision-free hash. */
  datatype Digest = Digest(of: string)

  datatype Attempt = Attempt(
    deviceId: string, callbackUrl: string, state: string, stateHash: Digest, nonceHash: Digest, expiresAt: int)

  datatype Handoff = Handoff(
    attemptId: string, userId: string, deviceId: string, callbackUrl: string, state: string,
    stateHash: Digest, nonceHash: Digest, expiresAt: int, consumedAt: Option<int>)
  {
    /** A time of zero counts as none. */
    predicate Consumed() { consumedAt.Some? && consumedAt.value != 0 }
  }

  datatype Store = Store(attempts: map<string, Attempt>, handoffs: map<Digest, Handoff>)

  /** The readings of the clock during one call: by the pruning, by the check of an expiry,
      and for the time that is stored. */
  datatype Clock = Clock(prune: int, check: int, stamp: int)

  datatype StartInput = StartInput(deviceId: string, callbackUrl: string, state: string, nonce: string,
                                   ttlMs: Option<int>)

  datatype IssueInput = IssueInput(attemptId: string, userId: string, ttlMs: Option<int>)

  datatype ConsumeInput = ConsumeInput(token: string, deviceId: string, state: string, nonce: string)

  datatype IssueResult =
    | Issued(attemptId: string, token: string, callbackUrl: string, state: string, deviceId: string, userId: string,
             expiresAt: int)
    | AttemptNotFound
    | AttemptExpired

  datatype ConsumeResult =
    | Consumed(attemptId: string, userId: string, deviceId: string)
    | HandoffNotFound
    | HandoffExpired
    | HandoffAlreadyUsed
    | DeviceMismatch
    | StateMismatch
    | NonceMismatch

  const ATTEMPT_TTL_MS := 600000
  const MAX_HANDOFF_TTL_MS := 120000

  function AttemptTtl(ttlMs: Option<int>): int {
    var ttl := if ttlMs.Some? then ttlMs.value else ATTEMPT_TTL_MS;
    if ttl < 1 then 1 else ttl
  }

  function HandoffTtl(ttlMs: Option<int>): int {
    var ttl := if ttlMs.Some? then ttlMs.value else MAX_HANDOFF_TTL_MS;
    if ttl < 1 then 1 else if ttl > MAX_HANDOFF_TTL_MS then MAX_HANDOFF_TTL_MS else ttl
  }

  // ---------------------------------------------------------------- the operations as functions

  function LiveAttempts(attempts: map<string, Attempt>, now: int): map<string, Attempt> {
    map id | id in attempts && attempts[id].expiresAt > now :: attempts[id]
  }

  function KeptHandoffs(handoffs: map<Digest, Handoff>, now: int): map<Digest, Handoff> {
    map d | d in handoffs && !(handoffs[d].Consumed() && handoffs[d].expiresAt <= now) :: handoffs[d]
  }

  function Pruned(s: Store, now: int): Store {
    Store(LiveAttempts(s.attempts, now), KeptHandoffs(s.handoffs, now))
  }

  function NewAttempt(input: StartInput, stamp: int): Attempt {
    Attempt(input.deviceId, input.callbackUrl, input.state, Digest(input.state), Digest(input.nonce),
            stamp + AttemptTtl(input.ttlMs))
  }

  function NewHandoff(attempt: Attempt, input: IssueInput, stamp: int): Handoff {
    Handoff(input.attemptId, input.userId, attempt.deviceId, attempt.callbackUrl, attempt.state,
            attempt.stateHash, attempt.nonceHash, stamp + HandoffTtl(input.ttlMs), None)
  }

  function StartF(s: Store, input: StartInput, attemptId: string, clock: Clock): Store {
    var kept := Pruned(s, clock.prune);
    kept.(attempts := kept.attempts[attemptId := NewAttempt(input, clock.stamp)])
  }

  function IssueF(s: Store, input: IssueInput, token: string, clock: Clock): (Store, IssueResult) {
    var kept := Pruned(s, clock.prune);
    if input.attemptId !in kept.attempts then (kept, AttemptNotFound)
    else
      var attempt := kept.attempts[input.attemptId];
      if attempt.expiresAt <= clock.check then
        (kept.(attempts := kept.attempts - {input.attemptId}), AttemptExpired)
      else
        var handoff := NewHandoff(attempt, input, clock.stamp);
        (kept.(handoffs := kept.handoffs[Digest(token) := handoff]),
         Issued(input.attemptId, token, attempt.callbackUrl, attempt.state, attempt.deviceId, input.userId,
                handoff.expiresAt))
  }

  function ConsumeF(s: Store, input: ConsumeInput, clock: Clock): (Store, ConsumeResult) {
    var kept := Pruned(s, clock.prune);
    var d := Digest(input.token);
    if d !in kept.handoffs then (kept, HandoffNotFound)
    else
      var handoff := kept.handoffs[d];
      if handoff.expiresAt <= clock.check then (kept.(handoffs := kept.handoffs - {d}), HandoffExpired)
      else if handoff.Consumed() then (kept, HandoffAlreadyUsed)
      else if handoff.deviceId != input.deviceId then (kept, DeviceMismatch)
      else if handoff.stateHash != Digest(input.state) then (kept, StateMismatch)
      else if handoff.nonceHash != Digest(input.nonce) then (kept, NonceMismatch)
      else
        (kept.(handoffs := kept.handoffs[d := handoff.(consumedAt := Some(clock.stamp))]),
         Consumed(handoff.attemptId, handoff.userId, handoff.deviceId))
  }

  // ---------------------------------------------------------------- the store

  class DesktopAuthStore {
    var attempts: map<string, Attempt>
    var handoffs: map<Digest, Handoff>

    ghost function State(): Store reads this {
      Store(attempts, handoffs)
    }

    constructor ()
      ensures State() == Store(map[], map[])
    {
      attempts, handoffs := map[], map[];
    }

    method PruneExpired(now: int)
      modifies this
      ensures State() == Pruned(old(State()), now)
      ensures forall id :: id in attempts <==> id in old(attempts) && now < old(attempts)[id].expiresAt
      ensures forall d :: d in handoffs <==>
        d in old(handoffs) && (now < old(handoffs)[d].expiresAt || old(handoffs)[d].consumedAt in {None, Some(0)})
    {
      PruneAttempts(now);
      PruneHandoffs(now);
    }

    method PruneAttempts(now: int)
      modifies this`attempts
      ensures attempts == LiveAttempts(old(attempts), now)
    {
      ghost var before := attempts;
      var rest := attempts.Keys;
      while rest != {}
        invariant rest <= attempts.Keys <= before.Keys
        invariant forall id :: id in attempts ==> attempts[id] == before[id]
        invariant forall id :: id in before && id !in rest ==> (id in attempts <==> before[id].expiresAt > now)
      {
        var id :| id in rest;
        rest := rest - {id};
        if attempts[id].expiresAt <= now { attempts := attempts - {id}; }
      }
    }

    method PruneHandoffs(now: int)
      modifies this`handoffs
      ensures handoffs == KeptHandoffs(old(handoffs), now)
    {
      ghost var before := handoffs;
      var rest := handoffs.Keys;
      while rest != {}
        invariant rest <= handoffs.Keys <= before.Keys
        invariant forall d :: d in handoffs ==> handoffs[d] == before[d]
        invariant forall d :: d in before && d !in rest ==>
                                (d in handoffs <==> !(before[d].Consumed() && before[d].expiresAt <= now))
      {
        var d :| d in rest;
        rest := rest - {d};
        if handoffs[d].Consumed() && handoffs[d].expiresAt <= now { handoffs := handoffs - {d}; }
      }
    }

    method StartAttempt(input: StartInput, attemptId: string, clock: Clock) returns (expiresAt: int)
      modifies this
      ensures State() == StartF(old(State()), input, attemptId, clock)
      ensures attemptId in attempts && attempts[attemptId].expiresAt == expiresAt
      ensures expiresAt == clock.stamp + match input.ttlMs
                                         case None => 600_000
                                         case Some(ttl) => if ttl < 1 then 1 else ttl
    {
      PruneExpired(clock.prune);
      var attempt := NewAttempt(input, clock.stamp);
      attempts := attempts[attemptId := attempt];
      expiresAt := attempt.expiresAt;
    }

    method IssueHandoff(input: IssueInput, token: string, clock: Clock) returns (r: IssueResult)
      modifies this
      ensures (State(), r) == IssueF(old(State()), input, token, clock)
    {
      PruneExpired(clock.prune);
      if input.attemptId !in attempts { return AttemptNotFound; }
      var attempt := attempts[input.attemptId];
      if attempt.expiresAt <= clock.check {
        attempts := attempts - {input.attemptId};
        return AttemptExpired;
      }
      var handoff := NewHandoff(attempt, input, clock.stamp);
      handoffs := handoffs[Digest(token) := handoff];
      r := Issued(input.attemptId, token, attempt.callbackUrl, attempt.state, attempt.deviceId, input.userId,
                  handoff.expiresAt);
    }

    method ConsumeHandoff(input: ConsumeInput, clock: Clock) returns (r: ConsumeResult)
      modifies this
      ensures (State(), r) == ConsumeF(old(State()), input, clock)
    {
      PruneExpired(clock.prune);
      var d := Digest(input.token);
      if d !in handoffs { return HandoffNotFound; }
      var handoff := handoffs[d];
      if handoff.expiresAt <= clock.check {
        handoffs := handoffs - {d};
        return HandoffExpired;
      }
      if handoff.Consumed() { return HandoffAlreadyUsed; }
      if handoff.deviceId != input.deviceId { return DeviceMismatch; }
      if handoff.stateHash != Digest(input.state) { return StateMismatch; }
      if handoff.nonceHash != Digest(input.nonce) { return NonceMismatch; }
      handoffs := handoffs[d := handoff.(consumedAt := Some(clock.stamp))];
      r := Consumed(handoff.attemptId, handoff.userId, handoff.deviceId);
    }
  }
}

/**
 The two request limiters: an exact log of the allowed requests kept in memory, and a pair
 of counters kept in Redis that weighs the previous window's count by how much of it is
 still in sight.
 */
module RateLimit {
  import opened Wrappers

  datatype Entry = Entry(windowMs: nat, timestamps: seq<int>)

  /** `retryAfterSeconds` is None where the source computes it from a missing timestamp. */
  datatype Verdict = Verdict(allowed: bool, remaining: nat, retryAfterSeconds: Option<nat>)

  function Max(a: int, b: int): int {
    if a > b then a else b
  }

  function CeilDiv(a: nat, b: nat): nat
    requires b > 0
  {
    (a + b - 1) / b
  }

  // ---------------------------------------------------------------- in memory

  /** The timestamps whose window still covers `now`. */
  function Recent(timestamps: seq<int>, now: int, windowMs: nat): seq<int> {
    if timestamps == [] then []
    else
      var n := |timestamps| - 1;
      Recent(timestamps[..n], now, windowMs) + (if now - timestamps[n] < windowMs then [timestamps[n]] else [])
  }

  function Prune(entry: Entry, now: int): Entry {
    entry.(timestamps := Recent(entry.timestamps, now, entry.windowMs))
  }

  /** An entry made for another window length is dropped. */
  function EntryFor(found: Option<Entry>, windowMs: nat): Entry {
    if found.Some? && found.value.windowMs == windowMs then found.value else Entry(windowMs, [])
  }

  function Consumed(found: Option<Entry>, limit: int, windowMs: nat, now: int): (Entry, Verdict) {
    var entry := Prune(EntryFor(found, windowMs), now);
    if |entry.timestamps| >= limit then
      var retryAfter :=
        if entry.timestamps == [] then None
        else Some(Max(1, CeilDiv(Max(0, windowMs - (now - entry.timestamps[0])), 1000)));
      (entry, Verdict(false, 0, retryAfter))
    else
      (entry.(timestamps := entry.timestamps + [now]),
       Verdict(true, Max(0, limit - (|entry.timestamps| + 1)), Some(0)))
  }

  type Buckets = map<string, Entry>

  function Lookup<K, V>(m: map<K, V>, key: K): Option<V> {
    if key in m then Some(m[key]) else None
  }

  /** Every entry pruned, and dropped when nothing is left of it. */
  function Swept(buckets: Buckets, now: int): Buckets {
    map key | key in buckets && Prune(buckets[key], now).timestamps != [] :: Prune(buckets[key], now)
  }

  /** A sweep that has yet to visit `rest`. */
  function SweptBut(buckets: Buckets, rest: set<string>, now: int): Buckets {
    map key | key in buckets && (key in rest || Prune(buckets[key], now).timestamps != []) ::
      if key in rest then buckets[key] else Prune(buckets[key], now)
  }

  lemma SweepStep(buckets: Buckets, rest: set<string>, now: int, key: string)
    requires key in rest && rest <= buckets.Keys
    ensures var part, next, entry :=
            SweptBut(buckets, rest, now), SweptBut(buckets, rest - {key}, now), Prune(buckets[key], now);
      && key in part && part[key] == buckets[key]
      && (entry.timestamps == [] ==> next == part - {key} && next.Keys - (rest - {key}) == part.Keys - rest)
      && (entry.timestamps != [] ==>
          next == part[key := entry] && next.Keys - (rest - {key}) == part.Keys - rest + {key})
  {
    hide Prune;
    var part, next, entry :=
      SweptBut(buckets, rest, now), SweptBut(buckets, rest - {key}, now), Prune(buckets[key], now);
    if entry.timestamps == [] {
      assert next == part - {key};
    } else {
      assert next == part[key := entry];
    }
  }

  lemma SweepEnds(buckets: Buckets, now: int)
    ensures SweptBut(buckets, buckets.Keys, now) == buckets && SweptBut(buckets, {}, now) == Swept(buckets, now)
  {
  }

  /** Some request of the key was made less than its window ago. */
  predicate HasRecent(entry: Entry, now: int) {
    exists i :: 0 <= i < |entry.timestamps| && now - entry.timestamps[i] < entry.windowMs
  }

  lemma {:induction false} RecentIff(timestamps: seq<int>, now: int, windowMs: nat)
    ensures Recent(timestamps, now, windowMs) != [] <==>
            exists i :: 0 <= i < |timestamps| && now - timestamps[i] < windowMs
  {
    if timestamps != [] {
      var init := timestamps[..|timestamps| - 1];
      RecentIff(init, now, windowMs);
      if i :| 0 <= i < |init| && now - init[i] < windowMs { assert timestamps[i] == init[i]; }
      if i :| 0 <= i < |timestamps| && now - timestamps[i] < windowMs {
        assert i < |init| ==> init[i] == timestamps[i];
      }
    }
  }

  /** Of the timestamps there were, those whose window still covers `now`. */
  ghost predicate OnlyRecent(before: Entry, after: Entry, now: int) {
    && after.windowMs == before.windowMs
    && forall t :: t in after.timestamps <==> t in before.timestamps && now - t < before.windowMs
  }

  lemma {:induction false} RecentMembers(timestamps: seq<int>, now: int, windowMs: nat)
    ensures forall t :: t in Recent(timestamps, now, windowMs) <==> t in timestamps && now - t < windowMs
  {
    if timestamps != [] {
      var n := |timestamps| - 1;
      RecentMembers(timestamps[..n], now, windowMs);
      assert timestamps == timestamps[..n] + [timestamps[n]];
    }
  }

  lemma SweptKeeps(buckets: Buckets, now: int, key: string)
    requires key in Swept(buckets, now)
    ensures key in buckets && OnlyRecent(buckets[key], Swept(buckets, now)[key], now)
  {
    RecentMembers(buckets[key].timestamps, now, buckets[key].windowMs);
  }

  /** What a request leaves in the log of its key: what is recent of it, if it is for the same
      window, and itself if it is allowed. */
  lemma ConsumedKeeps(found: Option<Entry>, limit: int, windowMs: nat, now: int)
    ensures var (entry, v) := Consumed(found, limit, windowMs, now);
      entry.windowMs == windowMs
      && forall t :: t in entry.timestamps <==>
           || (v.allowed && t == now)
           || (found.Some? && found.value.windowMs == windowMs && t in found.value.timestamps && now - t < windowMs)
  {
    RecentMembers(EntryFor(found, windowMs).timestamps, now, windowMs);
    hide Recent;
  }

  lemma ActiveKeys(buckets: Buckets, now: int)
    ensures Swept(buckets, now).Keys == set key | key in buckets && HasRecent(buckets[key], now)
  {
    hide Recent;
    forall key | key in buckets ensures Prune(buckets[key], now).timestamps != [] <==> HasRecent(buckets[key], now) {
      RecentIff(buckets[key].timestamps, now, buckets[key].windowMs);
    }
  }

  // ---------------------------------------------------------------- in Redis

  datatype Counter = Counter(count: nat, expiresAt: Option<int>)

  type Counters = map<(string, int), Counter>

  predicate Alive(counters: Counters, slot: (string, int), now: int) {
    slot in counters && (counters[slot].expiresAt.Some? ==> now < counters[slot].expiresAt.value)
  }

  function CountAt(counters: Counters, slot: (string, int), now: int): nat {
    if Alive(counters, slot, now) then counters[slot].count else 0
  }

  /** INCR keeps the key's time to live, and starts a key that is gone without one. */
  function Incremented(counters: Counters, slot: (string, int), now: int): Counters {
    if Alive(counters, slot, now) then counters[slot := counters[slot].(count := counters[slot].count + 1)]
    else counters[slot := Counter(1, None)]
  }

  function TtlSeconds(windowMs: nat, elapsed: nat): int {
    Max(1, CeilDiv(Max(0, 2 * windowMs - elapsed), 1000))
  }

  /** The counters after a request: counted in its window, allowed or not. */
  function Counted(counters: Counters, key: string, windowMs: nat, now: nat): Counters
    requires windowMs > 0
  {
    var slot := (key, now / windowMs);
    var incremented := Incremented(counters, slot, now);
    if incremented[slot].count == 1 then
      incremented[slot := incremented[slot].(expiresAt := Some(now + 1000 * TtlSeconds(windowMs, now % windowMs)))]
    else incremented
  }

  /** windowMs times the weighted count: this window's requests, and the previous window's
      for the share of it that is less than windowMs ago. */
  function Weight(count: nat, previous: nat, windowMs: nat, elapsed: nat): int {
    windowMs * count + previous * Max(0, windowMs - elapsed)
  }

  function Weighed(count: nat, previous: nat, limit: int, windowMs: nat, elapsed: nat): Verdict
    requires windowMs > 0
  {
    var weight := Weight(count, previous, windowMs, elapsed);
    if weight > limit * windowMs then
      Verdict(false, 0, Some(Max(1, CeilDiv(Max(1, windowMs - elapsed), 1000))))
    else
      Verdict(true, Max(0, (limit * windowMs - weight) / windowMs), Some(0))
  }

  function CountedVerdict(counters: Counters, key: string, limit: int, windowMs: nat, now: nat): Verdict
    requires windowMs > 0
  {
    var after := Counted(counters, key, windowMs, now);
    var bucket := now / windowMs;
    Weighed(after[(key, bucket)].count, CountAt(after, (key, bucket - 1), now), limit, windowMs, now % windowMs)
  }

  // ---------------------------------------------------------------- the limiter

  class RateLimiter {
    var buckets: Buckets
    var counters: Counters

    constructor ()
      ensures buckets == map[] && counters == map[]
    {
      buckets, counters := map[], map[];
    }

    method ConsumeMemory(key: string, limit: int, windowMs: nat, now: int) returns (v: Verdict)
      modifies this`buckets
      ensures (buckets, v) == (var (entry, verdict) := Consumed(Lookup(old(buckets), key), limit, windowMs, now);
                               (old(buckets)[key := entry], verdict))
    {
      var entry := if key in buckets && buckets[key].windowMs == windowMs then buckets[key] else Entry(windowMs, []);
      entry := Prune(entry, now);
      if |entry.timestamps| >= limit {
        var retryAfter := None;
        if entry.timestamps != [] {
          var retryAfterMs := Max(0, windowMs - (now - entry.timestamps[0]));
          retryAfter := Some(Max(1, CeilDiv(retryAfterMs, 1000)));
        }
        buckets := buckets[key := entry];
        return Verdict(false, 0, retryAfter);
      }
      entry := entry.(timestamps := entry.timestamps + [now]);
      buckets := buckets[key := entry];
      v := Verdict(true, Max(0, limit - |entry.timestamps|), Some(0));
    }

    /** `redis` says whether the Redis backend is configured and answers. */
    method Consume(key: string, limit: int, windowMs: nat, now: nat, redis: bool) returns (v: Verdict)
      requires windowMs > 0
      modifies this
      ensures redis ==> buckets == old(buckets) && counters == Counted(old(counters), key, windowMs, now)
      ensures redis ==> v == CountedVerdict(old(counters), key, limit, windowMs, now)
      ensures !redis ==> counters == old(counters)
      ensures !redis ==>
        (buckets, v) == (var (entry, verdict) := Consumed(Lookup(old(buckets), key), limit, windowMs, now);
                         (old(buckets)[key := entry], verdict))
    {
      if !redis {
        v := ConsumeMemory(key, limit, windowMs, now);
        return;
      }
      var bucket := now / windowMs;
      var elapsed := now - bucket * windowMs;
      assert elapsed == now % windowMs;
      var slot := (key, bucket);
      counters := Incremented(counters, slot, now);
      var count := counters[slot].count;
      if count == 1 {
        counters := counters[slot := counters[slot].(expiresAt := Some(now + 1000 * TtlSeconds(windowMs, elapsed)))];
      }
      var previous := CountAt(counters, (key, bucket - 1), now);
      v := Weighed(count, previous, limit, windowMs, elapsed);
    }

    /** Counts the keys with a recent request and forgets the others. */
    method KeyCount(now: int) returns (active: nat)
      modifies this`buckets
      ensures buckets == Swept(old(buckets), now) && active == |buckets|
      ensures forall key :: key in buckets ==>
        key in old(buckets) && OnlyRecent(old(buckets)[key], buckets[key], now)
      ensures active == |set key | key in old(buckets) && HasRecent(old(buckets)[key], now)|
    {
      hide Prune, SweptBut, Swept;
      active := 0;
      ghost var before := buckets;
      SweepEnds(buckets, now);
      var rest := buckets.Keys;
      while rest != {}
        invariant rest <= before.Keys && buckets == SweptBut(before, rest, now)
        invariant active == |buckets.Keys - rest|
      {
        var key :| key in rest;
        SweepStep(before, rest, now, key);
        var entry := Prune(buckets[key], now);
        if entry.timestamps == [] {
          buckets := buckets - {key};
        } else {
          buckets := buckets[key := entry];
          active := active + 1;
        }
        rest := rest - {key};
      }
      ActiveKeys(before, now);
      forall key | key in buckets ensures key in before && OnlyRecent(before[key], buckets[key], now) {
        SweptKeeps(before, now, key);
      }
    }
  }
}

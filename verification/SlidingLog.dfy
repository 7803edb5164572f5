/**
 Runs of the in-memory limiter, over all keys: requests and sweeps in any order, at times
 that never go back. What is granted to one key, whose limit and window are fixed, forms an
 exact sliding window.
 */
module SlidingLog {
  import opened Counting
  import opened RateLimit
  import opened Wrappers

  datatype Call =
    | Request(key: string, limit: int, windowMs: nat, now: int)
    | Sweep(now: int)

  function Answer(buckets: Buckets, call: Call): (Entry, Verdict)
    requires call.Request?
  {
    Consumed(Lookup(buckets, call.key), call.limit, call.windowMs, call.now)
  }

  function Step(buckets: Buckets, call: Call): Buckets {
    match call
    case Request(key, _, _, _) => buckets[key := Answer(buckets, call).0]
    case Sweep(now) => Swept(buckets, now)
  }

  function After(calls: seq<Call>): Buckets {
    if calls == [] then map[] else Step(After(calls[..|calls| - 1]), calls[|calls| - 1])
  }

  /** When the key's requests were allowed. */
  function Grants(calls: seq<Call>, key: string): seq<int> {
    if calls == [] then []
    else
      var init, last := calls[..|calls| - 1], calls[|calls| - 1];
      Grants(init, key) +
      if last.Request? && last.key == key && Answer(After(init), last).1.allowed then [last.now] else []
  }

  predicate Ordered(times: seq<int>) {
    forall i, j :: 0 <= i <= j < |times| ==> times[i] <= times[j]
  }

  /** Time does not go back, and every request for `key` asks for the same limit and window. */
  predicate Regular(calls: seq<Call>, key: string, limit: int, windowMs: nat) {
    && (forall i, j :: 0 <= i <= j < |calls| ==> calls[i].now <= calls[j].now)
    && (forall i :: 0 <= i < |calls| && calls[i].Request? && calls[i].key == key ==>
          calls[i].limit == limit && calls[i].windowMs == windowMs)
  }

  predicate Before(calls: seq<Call>, now: int) {
    forall i :: 0 <= i < |calls| ==> calls[i].now <= now
  }

  // ---------------------------------------------------------------- pruning

  lemma {:induction false} PruneAgain(times: seq<int>, now: int, later: int, windowMs: nat)
    requires now <= later
    ensures Recent(Recent(times, now, windowMs), later, windowMs) == Recent(times, later, windowMs)
  {
    if times != [] {
      var n := |times| - 1;
      PruneAgain(times[..n], now, later, windowMs);
      var kept := Recent(times[..n], now, windowMs);
      if now - times[n] < windowMs {
        RecentAppend(kept, times[n], later, windowMs);
      } else {
        assert kept + [] == kept;
      }
    }
  }

  lemma RecentAppend(times: seq<int>, t: int, now: int, windowMs: nat)
    ensures Recent(times + [t], now, windowMs) == Recent(times, now, windowMs) + if now - t < windowMs then [t] else []
  {
    assert (times + [t])[..|times|] == times;
  }

  /** What is recent of an ordered log is a tail of it. */
  lemma {:induction false} RecentIsTail(times: seq<int>, now: int, windowMs: nat)
    requires Ordered(times)
    ensures |Recent(times, now, windowMs)| <= |times|
    ensures Recent(times, now, windowMs) == times[|times| - |Recent(times, now, windowMs)|..]
    ensures forall k :: 0 <= k < |times| ==>
            (now - times[k] < windowMs <==> k >= |times| - |Recent(times, now, windowMs)|)
  {
    if times != [] {
      var n := |times| - 1;
      RecentIsTail(times[..n], now, windowMs);
      assert forall k :: 0 <= k < n ==> times[..n][k] == times[k];
    }
  }

  // ---------------------------------------------------------------- the log is exact

  lemma {:induction false} WindowKept(calls: seq<Call>, key: string, limit: int, windowMs: nat)
    requires Regular(calls, key, limit, windowMs)
    ensures key in After(calls) ==> After(calls)[key].windowMs == windowMs
    decreases |calls|
  {
    if calls != [] { WindowKept(calls[..|calls| - 1], key, limit, windowMs); }
  }

  lemma ConsumedIsExact(found: Option<Entry>, grants: seq<int>, limit: int, windowMs: nat, now: int, later: int)
    requires Prune(EntryFor(found, windowMs), now) == Entry(windowMs, Recent(grants, now, windowMs)) && now <= later
    ensures var (entry, v) := Consumed(found, limit, windowMs, now);
      Prune(EntryFor(Some(entry), windowMs), later) ==
      Entry(windowMs, Recent(grants + if v.allowed then [now] else [], later, windowMs))
  {
    hide Recent;
    PruneAgain(grants, now, later, windowMs);
    RecentAppend(grants, now, later, windowMs);
    RecentAppend(Recent(grants, now, windowMs), now, later, windowMs);
    assert grants + [] == grants;
  }

  lemma SweptIsExact(buckets: Buckets, key: string, grants: seq<int>, windowMs: nat, now: int, later: int)
    requires Prune(EntryFor(Lookup(buckets, key), windowMs), now) == Entry(windowMs, Recent(grants, now, windowMs))
             && now <= later
    requires key in buckets ==> buckets[key].windowMs == windowMs
    ensures Prune(EntryFor(Lookup(Swept(buckets, now), key), windowMs), later) ==
            Entry(windowMs, Recent(grants, later, windowMs))
  {
    hide Recent;
    PruneAgain(grants, now, later, windowMs);
    NothingRecent(now, windowMs);
    NothingRecent(later, windowMs);
    if key in buckets { PruneAgain(buckets[key].timestamps, now, later, windowMs); }
  }

  /** The timestamps kept for the key, once pruned, are the grants still in the window:
      neither sweeps nor requests for other keys lose or add one. */
  lemma {:induction false} LogIsExact(calls: seq<Call>, key: string, limit: int, windowMs: nat, now: int)
    requires Regular(calls, key, limit, windowMs) && Before(calls, now)
    ensures Prune(EntryFor(Lookup(After(calls), key), windowMs), now) ==
            Entry(windowMs, Recent(Grants(calls, key), now, windowMs))
    decreases |calls|
  {
    hide Recent, Consumed, Swept, Prune, EntryFor;
    if calls == [] {
      EmptyLog(windowMs, now);
    } else {
      var init, last := calls[..|calls| - 1], calls[|calls| - 1];
      WindowKept(init, key, limit, windowMs);
      if last.Request? && last.key != key {
        LogIsExact(init, key, limit, windowMs, now);
        assert Grants(calls, key) == Grants(init, key);
      } else {
        LogIsExact(init, key, limit, windowMs, last.now);
        if last.Request? {
          ConsumedIsExact(Lookup(After(init), key), Grants(init, key), limit, windowMs, last.now, now);
        } else {
          SweptIsExact(After(init), key, Grants(init, key), windowMs, last.now, now);
          assert Grants(calls, key) == Grants(init, key);
        }
      }
    }
  }

  lemma EmptyLog(windowMs: nat, now: int)
    ensures Prune(EntryFor(None, windowMs), now) == Entry(windowMs, Recent([], now, windowMs))
  {
  }

  lemma NothingRecent(now: int, windowMs: nat)
    ensures Recent([], now, windowMs) == []
  {
  }

  /** A request is allowed exactly when fewer than `limit` grants are less than windowMs ago,
      and is told how many more there is room for besides itself. */
  lemma AllowedIff(calls: seq<Call>, key: string, limit: int, windowMs: nat, now: int)
    requires Regular(calls, key, limit, windowMs) && Before(calls, now)
    ensures Answer(After(calls), Request(key, limit, windowMs, now)).1.allowed <==>
            |Recent(Grants(calls, key), now, windowMs)| < limit
    ensures var v := Answer(After(calls), Request(key, limit, windowMs, now)).1;
      v.remaining == if v.allowed then limit - |Recent(Grants(calls, key), now, windowMs)| - 1 else 0
  {
    LogIsExact(calls, key, limit, windowMs, now);
  }

  /** A request that asks for another window length starts a new log: it is answered, and
      remembered, as the first one of its key. */
  lemma OtherWindowStartsOver(buckets: Buckets, key: string, limit: int, windowMs: nat, now: int)
    requires key in buckets && buckets[key].windowMs != windowMs
    ensures var (entry, v) := Answer(buckets, Request(key, limit, windowMs, now));
      && entry == Entry(windowMs, if v.allowed then [now] else [])
      && (v.allowed <==> limit > 0)
      && v == if limit > 0 then Verdict(true, limit - 1, Some(0)) else Verdict(false, 0, None)
  {
  }

  /** Retry-After is zero exactly with a request that is allowed, and missing exactly when a
      limit below one leaves no grant to wait for. */
  lemma RetryAfterMissingIff(calls: seq<Call>, key: string, limit: int, windowMs: nat, now: int)
    requires Regular(calls, key, limit, windowMs) && Before(calls, now)
    ensures var v := Answer(After(calls), Request(key, limit, windowMs, now)).1;
      && (v.retryAfterSeconds == Some(0) <==> v.allowed)
      && (v.retryAfterSeconds == None <==> limit <= 0)
  {
    hide Recent, After, Grants;
    LogIsExact(calls, key, limit, windowMs, now);
    GrantsAreSpaced(calls, key, limit, windowMs, now);
    NothingRecent(now, windowMs);
  }

  // ---------------------------------------------------------------- the sliding window

  /** Any grant and the one `limit` places later are at least a window apart. */
  predicate Spaced(times: seq<int>, limit: int, windowMs: nat) {
    forall i, j :: 0 <= i < j < |times| && j - i >= limit ==> times[j] - times[i] >= windowMs
  }

  lemma SpacedAppend(times: seq<int>, t: int, limit: int, windowMs: nat)
    requires Ordered(times) && Spaced(times, limit, windowMs) && |Recent(times, t, windowMs)| < limit
    requires forall i :: 0 <= i < |times| ==> times[i] <= t
    ensures Ordered(times + [t]) && Spaced(times + [t], limit, windowMs)
  {
    RecentIsTail(times, t, windowMs);
    hide Recent;
  }

  lemma {:induction false} GrantsAreSpaced(calls: seq<Call>, key: string, limit: int, windowMs: nat, now: int)
    requires Regular(calls, key, limit, windowMs) && Before(calls, now)
    ensures Ordered(Grants(calls, key)) && Spaced(Grants(calls, key), limit, windowMs)
    ensures forall i :: 0 <= i < |Grants(calls, key)| ==> Grants(calls, key)[i] <= now
    ensures limit <= 0 ==> Grants(calls, key) == []
    decreases |calls|
  {
    if calls != [] {
      hide Recent, After, Consumed, Ordered, Spaced;
      var init, last := calls[..|calls| - 1], calls[|calls| - 1];
      GrantsAreSpaced(init, key, limit, windowMs, last.now);
      var grants := Grants(init, key);
      if last.Request? && last.key == key && Answer(After(init), last).1.allowed {
        AllowedIff(init, key, limit, windowMs, last.now);
        SpacedAppend(grants, last.now, limit, windowMs);
      } else {
        assert grants + [] == grants;
      }
    }
  }

  /** In no half-open interval of the window's length are more than `limit` requests allowed. */
  lemma SlidingWindow(calls: seq<Call>, key: string, limit: int, windowMs: nat, from: int)
    requires Regular(calls, key, limit, windowMs)
    ensures var grants := Grants(calls, key);
      |set i | 0 <= i < |grants| && from <= grants[i] < from + windowMs| <= Max(0, limit)
  {
    hide Grants;
    var grants := Grants(calls, key);
    GrantsAreSpaced(calls, key, limit, windowMs, if calls == [] then 0 else calls[|calls| - 1].now);
    var inside := set i | 0 <= i < |grants| && from <= grants[i] < from + windowMs;
    if inside != {} {
      var first := First(grants, from);
      forall i | i in inside ensures i in Range(first, limit) {
        assert first <= i;
      }
      SubsetSize(inside, Range(first, limit));
    }
  }

  function First(times: seq<int>, from: int): (k: nat)
    ensures k <= |times|
    ensures forall i :: 0 <= i < k ==> times[i] < from
    ensures k < |times| ==> from <= times[k]
  {
    if times == [] || from <= times[0] then 0
    else
      var k := First(times[1..], from);
      assert forall i :: 1 <= i < k + 1 ==> times[i] == times[1..][i - 1];
      k + 1
  }

  // ---------------------------------------------------------------- Retry-After

  lemma HeldAtMost(times: seq<int>, limit: int, windowMs: nat, now: int)
    requires limit >= 1 && Ordered(times) && Spaced(times, limit, windowMs)
    requires forall i :: 0 <= i < |times| ==> times[i] <= now
    ensures |Recent(times, now, windowMs)| <= limit
  {
    RecentIsTail(times, now, windowMs);
    if |times| > limit {
      assert times[|times| - 1] - times[|times| - 1 - limit] >= windowMs;
    }
  }

  /** A denial's Retry-After is exact to the second: unless another request is allowed in
      the meantime, the key is served at every time that many seconds later, and was not
      yet served one second before. */
  lemma RetryAfterIsExact(calls: seq<Call>, more: seq<Call>, key: string, limit: int, windowMs: nat, now: int,
                          later: int)
    requires limit >= 1
    requires Regular(calls + more, key, limit, windowMs) && Before(calls, now) && Before(calls + more, later)
             && now <= later
    requires !Answer(After(calls), Request(key, limit, windowMs, now)).1.allowed
    requires Grants(calls + more, key) == Grants(calls, key)
    ensures var retryAfter := Answer(After(calls), Request(key, limit, windowMs, now)).1.retryAfterSeconds;
      var served := Answer(After(calls + more), Request(key, limit, windowMs, later)).1.allowed;
      && retryAfter.Some?
      && (later >= now + 1000 * retryAfter.value ==> served)
      && (served ==> later > now + 1000 * (retryAfter.value - 1))
  {
    hide Grants, Recent, After;
    assert Regular(calls, key, limit, windowMs) by {
      assert forall i :: 0 <= i < |calls| ==> calls[i] == (calls + more)[i];
    }
    var grants := Grants(calls, key);
    LogIsExact(calls, key, limit, windowMs, now);
    AllowedIff(calls + more, key, limit, windowMs, later);
    GrantsAreSpaced(calls, key, limit, windowMs, now);
    RecentIsTail(grants, now, windowMs);
    RecentIsTail(grants, later, windowMs);
    HeldAtMost(grants, limit, windowMs, now);
  }
}

/**
 Runs of the Redis limiter for one key with a fixed limit and window: each request is
 counted, weighed and answered at one instant, and time does not go back.
 */
module WeightedCounter {
  import opened RateLimit
  import opened Wrappers

  datatype Request = Request(now: nat, allowed: bool)

  /** The counters and the history after requests at the given times. */
  datatype State = State(counters: Counters, log: seq<Request>)

  function Serve(s: State, key: string, limit: int, windowMs: nat, now: nat): State
    requires windowMs > 0
  {
    State(Counted(s.counters, key, windowMs, now),
          s.log + [Request(now, CountedVerdict(s.counters, key, limit, windowMs, now).allowed)])
  }

  function Run(key: string, limit: int, windowMs: nat, times: seq<nat>): State
    requires windowMs > 0
  {
    if times == [] then State(map[], [])
    else Serve(Run(key, limit, windowMs, times[..|times| - 1]), key, limit, windowMs, times[|times| - 1])
  }

  predicate Ordered(times: seq<nat>) {
    forall i, j :: 0 <= i <= j < |times| ==> times[i] <= times[j]
  }

  /** Requests in a bucket, and those of them that were allowed. */
  function Asked(log: seq<Request>, windowMs: nat, bucket: int): nat
    requires windowMs > 0
  {
    if log == [] then 0
    else
      var last := log[|log| - 1];
      Asked(log[..|log| - 1], windowMs, bucket) + if last.now / windowMs == bucket then 1 else 0
  }

  function Allowed(log: seq<Request>, windowMs: nat, bucket: int): (n: nat)
    requires windowMs > 0
    ensures n <= Asked(log, windowMs, bucket)
  {
    if log == [] then 0
    else
      var last := log[|log| - 1];
      Allowed(log[..|log| - 1], windowMs, bucket) + if last.now / windowMs == bucket && last.allowed then 1 else 0
  }

  // ---------------------------------------------------------------- the counters are faithful

  /** The key is there, until the end of the bucket after it, exactly when there were requests. */
  predicate CountsBucket(s: State, key: string, windowMs: nat, bucket: int)
    requires windowMs > 0
  {
    var slot := (key, bucket);
    && (slot in s.counters <==> Asked(s.log, windowMs, bucket) > 0)
    && (slot in s.counters ==>
          && s.counters[slot].count == Asked(s.log, windowMs, bucket)
          && s.counters[slot].expiresAt.Some?
          && s.counters[slot].expiresAt.value >= (bucket + 2) * windowMs)
  }

  lemma DivMod(now: nat, w: nat)
    requires w > 0
    ensures now == (now / w) * w + now % w && 0 <= now % w < w
  {
  }

  lemma BucketOrder(a: nat, b: nat, w: nat)
    requires w > 0 && a <= b
    ensures a / w <= b / w
  {
    DivMod(a, w);
    DivMod(b, w);
    Cancel(a / w, b / w + 1, w);
  }

  lemma Cancel(x: int, y: int, w: nat)
    requires w > 0 && x * w < y * w
    ensures x < y
  {
  }

  /** The time to live covers the rest of this bucket and all of the next, and lasts no second
      longer. */
  lemma TtlCovers(now: nat, w: nat)
    requires w > 0
    ensures now + 1000 * TtlSeconds(w, now % w) >= (now / w + 2) * w
    ensures now + 1000 * (TtlSeconds(w, now % w) - 1) < (now / w + 2) * w
  {
    DivMod(now, w);
    var rest := 2 * w - now % w;
    assert 1000 * CeilDiv(rest, 1000) >= rest;
  }

  /** A request counts in its own bucket and nowhere else; the expiry is set by the first one
      of the bucket and stays. */
  lemma OnlyItsBucket(counters: Counters, key: string, w: nat, now: nat, slot: (string, int))
    requires w > 0
    ensures var after, mine := Counted(counters, key, w, now), (key, now / w);
      && (slot != mine ==>
          (slot in after <==> slot in counters) && (slot in counters ==> after[slot] == counters[slot]))
      && mine in after && after[mine].count == CountAt(counters, mine, now) + 1
      && (Alive(counters, mine, now) && counters[mine].count > 0 ==> after[mine].expiresAt == counters[mine].expiresAt)
      && (!Alive(counters, mine, now) ==>
            after[mine].expiresAt == Some(now + 1000 * TtlSeconds(w, now % w)))
  {
    hide TtlSeconds;
  }

  lemma AliveNow(s: State, key: string, windowMs: nat, now: nat, bucket: int)
    requires windowMs > 0 && CountsBucket(s, key, windowMs, bucket)
    requires now / windowMs - 1 <= bucket
    ensures Alive(s.counters, (key, bucket), now) <==> Asked(s.log, windowMs, bucket) > 0
    ensures CountAt(s.counters, (key, bucket), now) == Asked(s.log, windowMs, bucket)
  {
    DivMod(now, windowMs);
    assert (bucket + 2) * windowMs >= (now / windowMs + 1) * windowMs;
  }

  ghost predicate Faithful(s: State, key: string, windowMs: nat, bucket: int)
    requires windowMs > 0
  {
    forall b :: b >= bucket ==> CountsBucket(s, key, windowMs, b)
  }

  lemma AskedAppend(log: seq<Request>, r: Request, windowMs: nat, bucket: int)
    requires windowMs > 0
    ensures Asked(log + [r], windowMs, bucket) ==
            Asked(log, windowMs, bucket) + if r.now / windowMs == bucket then 1 else 0
    ensures Allowed(log + [r], windowMs, bucket) ==
            Allowed(log, windowMs, bucket) + if r.now / windowMs == bucket && r.allowed then 1 else 0
  {
    assert (log + [r])[..|log|] == log;
  }

  lemma ServeKeepsCount(s: State, key: string, limit: int, windowMs: nat, now: nat, bucket: int)
    requires windowMs > 0 && CountsBucket(s, key, windowMs, bucket) && bucket >= now / windowMs - 1
    ensures CountsBucket(Serve(s, key, limit, windowMs, now), key, windowMs, bucket)
  {
    hide CountedVerdict, TtlSeconds, Asked;
    AliveNow(s, key, windowMs, now, bucket);
    TtlCovers(now, windowMs);
    AskedAppend(s.log, Serve(s, key, limit, windowMs, now).log[|s.log|], windowMs, bucket);
  }

  /** After any run the counters of this bucket and the one before it, and of those to come,
      count every request made in them: no time to live runs out too early. */
  lemma {:induction false} RunIsFaithful(key: string, limit: int, windowMs: nat, times: seq<nat>, now: nat)
    requires windowMs > 0 && Ordered(times + [now])
    ensures Faithful(Run(key, limit, windowMs, times), key, windowMs, now / windowMs - 1)
    decreases |times|
  {
    hide CountsBucket, Serve;
    if times == [] {
      forall b ensures CountsBucket(State(map[], []), key, windowMs, b) { NothingCounted(key, windowMs, b); }
    } else {
      var init, last := times[..|times| - 1], times[|times| - 1];
      assert Ordered(init + [last]) by { assert init + [last] == (times + [now])[..|times|]; }
      assert last == (times + [now])[|times| - 1] && now == (times + [now])[|times|];
      RunIsFaithful(key, limit, windowMs, init, last);
      BucketOrder(last, now, windowMs);
      forall b | b >= now / windowMs - 1 ensures CountsBucket(Run(key, limit, windowMs, times), key, windowMs, b) {
        ServeKeepsCount(Run(key, limit, windowMs, init), key, limit, windowMs, last, b);
      }
    }
  }

  lemma NothingCounted(key: string, windowMs: nat, bucket: int)
    requires windowMs > 0
    ensures CountsBucket(State(map[], []), key, windowMs, bucket)
  {
  }

  /** The weighted number of requests, times the window length, if `more` of them are made
      at this instant. */
  function Load(log: seq<Request>, windowMs: nat, now: nat, more: nat): int
    requires windowMs > 0
  {
    windowMs * (Asked(log, windowMs, now / windowMs) + more)
    + Asked(log, windowMs, now / windowMs - 1) * (windowMs - now % windowMs)
  }

  lemma FloorBounds(room: nat, w: nat)
    requires w > 0
    ensures w * (room / w) <= room < w * (room / w) + w
  {
  }

  lemma Distribute(w: nat, x: int, y: int)
    ensures w * (x + y) == w * x + w * y
  {
  }

  lemma WeighedMeans(count: nat, previous: nat, limit: int, w: nat, elapsed: nat)
    requires w > 0 && elapsed < w
    ensures var v, before := Weighed(count, previous, limit, w, elapsed), previous * (w - elapsed);
      && (v.allowed <==> w * count + before <= limit * w)
      && (v.allowed ==> w * (count + v.remaining) + before <= limit * w < w * (count + v.remaining + 1) + before)
    ensures var v := Weighed(count, previous, limit, w, elapsed);
      (v.retryAfterSeconds == Some(0) <==> v.allowed) && (!v.allowed ==> v.remaining == 0)
  {
    var room := limit * w - Weight(count, previous, w, elapsed);
    if room >= 0 {
      FloorBounds(room, w);
      Distribute(w, count, room / w);
      Distribute(w, count + room / w, 1);
    }
  }

  /** A request is allowed exactly when the weighted number of requests made so far,
      itself included and whether allowed or not, is within the limit; `remaining` is then
      exactly how many more would be. */
  lemma AllowedIff(key: string, limit: int, windowMs: nat, times: seq<nat>, now: nat)
    requires windowMs > 0 && Ordered(times + [now])
    ensures var s := Run(key, limit, windowMs, times);
      CountedVerdict(s.counters, key, limit, windowMs, now).allowed <==>
        Load(s.log, windowMs, now, 1) <= limit * windowMs
    ensures var s, v := Run(key, limit, windowMs, times),
                        CountedVerdict(Run(key, limit, windowMs, times).counters, key, limit, windowMs, now);
      v.allowed ==>
        Load(s.log, windowMs, now, 1 + v.remaining) <= limit * windowMs < Load(s.log, windowMs, now, 2 + v.remaining)
    ensures var v := CountedVerdict(Run(key, limit, windowMs, times).counters, key, limit, windowMs, now);
      (v.retryAfterSeconds == Some(0) <==> v.allowed) && (!v.allowed ==> v.remaining == 0)
  {
    hide Run, Asked, Weighed;
    var s, bucket := Run(key, limit, windowMs, times), now / windowMs;
    RunIsFaithful(key, limit, windowMs, times, now);
    AliveNow(s, key, windowMs, now, bucket);
    AliveNow(s, key, windowMs, now, bucket - 1);
    DivMod(now, windowMs);
    WeighedMeans(Asked(s.log, windowMs, bucket) + 1, Asked(s.log, windowMs, bucket - 1), limit, windowMs,
                 now % windowMs);
  }

  /** A denied request is told to come back in the next bucket: as many whole seconds later
      as it takes to get there, and no more. */
  lemma RetryAfterReachesNextBucket(key: string, limit: int, windowMs: nat, counters: Counters, now: nat)
    requires windowMs > 0
    ensures var v, next := CountedVerdict(counters, key, limit, windowMs, now), (now / windowMs + 1) * windowMs;
      !v.allowed ==> v.retryAfterSeconds.Some? && next <= now + 1000 * v.retryAfterSeconds.value < next + 1000
  {
    hide Counted;
    DivMod(now, windowMs);
    var rest := windowMs - now % windowMs;
    assert rest <= 1000 * CeilDiv(rest, 1000) < rest + 1000;
  }

  // ---------------------------------------------------------------- the bound

  /** With `a` allowed in the bucket before and `b` so far in this one, at `elapsed`. */
  predicate Fits(a: nat, b: nat, limit: int, windowMs: nat, elapsed: nat) {
    elapsed < windowMs && windowMs * b + a * (windowMs - elapsed) <= limit * windowMs
  }

  ghost predicate FitsSometime(a: nat, b: nat, limit: int, windowMs: nat) {
    exists elapsed :: Fits(a, b, limit, windowMs, elapsed)
  }

  /** The bound held when the bucket's last request was allowed. */
  ghost predicate Bounded(log: seq<Request>, limit: int, windowMs: nat, bucket: int)
    requires windowMs > 0
  {
    Allowed(log, windowMs, bucket) > 0 ==>
      FitsSometime(Allowed(log, windowMs, bucket - 1), Allowed(log, windowMs, bucket), limit, windowMs)
  }

  lemma FewerFit(a: nat, b: nat, asked: nat, counted: nat, limit: int, windowMs: nat, elapsed: nat)
    requires a <= asked && b <= counted && Fits(asked, counted, limit, windowMs, elapsed)
    ensures Fits(a, b, limit, windowMs, elapsed)
  {
    assert windowMs * b <= windowMs * counted;
    assert a * (windowMs - elapsed) <= asked * (windowMs - elapsed);
  }

  /** At an allowed request, with `a` requests allowed in the bucket before and `b` in this one,
      itself included, windowMs * b + a * (windowMs - elapsed) is within limit * windowMs. */
  lemma AllowedFits(key: string, limit: int, windowMs: nat, times: seq<nat>, now: nat)
    requires windowMs > 0 && Ordered(times + [now])
    ensures var s, bucket := Run(key, limit, windowMs, times), now / windowMs;
      var log := Serve(s, key, limit, windowMs, now).log;
      log[|s.log|].allowed ==>
        Fits(Allowed(log, windowMs, bucket - 1), Allowed(log, windowMs, bucket), limit, windowMs, now % windowMs)
  {
    hide Run, Asked, Allowed, Counted, CountedVerdict, Fits;
    var s, bucket := Run(key, limit, windowMs, times), now / windowMs;
    var next := Serve(s, key, limit, windowMs, now);
    var r := next.log[|s.log|];
    AskedAppend(s.log, r, windowMs, bucket);
    AskedAppend(s.log, r, windowMs, bucket - 1);
    if r.allowed {
      AllowedIff(key, limit, windowMs, times, now);
      DivMod(now, windowMs);
      var asked, counted := Asked(s.log, windowMs, bucket - 1), Asked(s.log, windowMs, bucket) + 1;
      FitsNow(asked, counted, limit, windowMs, now % windowMs);
      FewerFit(Allowed(next.log, windowMs, bucket - 1), Allowed(next.log, windowMs, bucket), asked, counted, limit,
               windowMs, now % windowMs);
    }
  }

  lemma ServeStaysBounded(key: string, limit: int, windowMs: nat, times: seq<nat>, now: nat, bucket: int)
    requires windowMs > 0 && Ordered(times + [now])
             && Bounded(Run(key, limit, windowMs, times).log, limit, windowMs, bucket)
    requires bucket > now / windowMs ==> Asked(Run(key, limit, windowMs, times).log, windowMs, bucket) == 0
    ensures Bounded(Serve(Run(key, limit, windowMs, times), key, limit, windowMs, now).log, limit, windowMs, bucket)
  {
    hide Run, Asked, Allowed, Counted, CountedVerdict, Fits;
    var s := Run(key, limit, windowMs, times);
    var r := Serve(s, key, limit, windowMs, now).log[|s.log|];
    AskedAppend(s.log, r, windowMs, bucket);
    AskedAppend(s.log, r, windowMs, bucket - 1);
    AllowedFits(key, limit, windowMs, times, now);
  }

  lemma FitsNow(a: nat, b: nat, limit: int, windowMs: nat, elapsed: nat)
    requires elapsed < windowMs && windowMs * b + a * (windowMs - elapsed) <= limit * windowMs
    ensures Fits(a, b, limit, windowMs, elapsed)
  {
  }

  lemma {:induction false} NothingAskedYet(key: string, limit: int, windowMs: nat, times: seq<nat>, now: nat,
                                           bucket: int)
    requires windowMs > 0 && Ordered(times + [now]) && bucket > now / windowMs
    ensures Asked(Run(key, limit, windowMs, times).log, windowMs, bucket) == 0
    decreases |times|
  {
    hide Counted, CountedVerdict;
    if times != [] {
      var init, last := times[..|times| - 1], times[|times| - 1];
      assert Ordered(init + [last]) by { assert init + [last] == (times + [now])[..|times|]; }
      assert last == (times + [now])[|times| - 1] && now == (times + [now])[|times|];
      BucketOrder(last, now, windowMs);
      NothingAskedYet(key, limit, windowMs, init, last, bucket);
      var s := Run(key, limit, windowMs, init);
      AskedAppend(s.log, Serve(s, key, limit, windowMs, last).log[|s.log|], windowMs, bucket);
    }
  }

  lemma {:induction false} RunIsBounded(key: string, limit: int, windowMs: nat, times: seq<nat>, bucket: int)
    requires windowMs > 0 && Ordered(times)
    ensures Bounded(Run(key, limit, windowMs, times).log, limit, windowMs, bucket)
    decreases |times|
  {
    hide Counted, CountedVerdict, Bounded;
    if times == [] {
      EmptyBounded(limit, windowMs, bucket);
    } else {
      var init, last := times[..|times| - 1], times[|times| - 1];
      assert init + [last] == times;
      RunIsBounded(key, limit, windowMs, init, bucket);
      if bucket > last / windowMs { NothingAskedYet(key, limit, windowMs, init, last, bucket); }
      ServeStaysBounded(key, limit, windowMs, init, last, bucket);
    }
  }

  lemma EmptyBounded(limit: int, windowMs: nat, bucket: int)
    requires windowMs > 0
    ensures Bounded([], limit, windowMs, bucket)
  {
  }

  lemma Product(a: nat, k: nat)
    ensures a * k >= 0 && (a > 0 && k > 0 ==> a * k > 0)
  {
  }

  lemma Under(b: nat, limit: int, w: nat, p: nat)
    requires w > 0 && w * b + p <= limit * w
    ensures b <= limit && (p > 0 ==> b < limit)
  {
    if p > 0 { Cancel(b, limit, w); } else { Cancel(b, limit + 1, w); }
  }

  lemma FitMeans(a: nat, b: nat, limit: int, windowMs: nat, elapsed: nat)
    requires Fits(a, b, limit, windowMs, elapsed)
    ensures b <= limit && (a > 0 ==> b < limit)
  {
    Product(a, windowMs - elapsed);
    Under(b, limit, windowMs, a * (windowMs - elapsed));
  }

  /** A bucket allows at most `limit` requests, and fewer once the bucket before it allowed any. */
  lemma BucketBound(key: string, limit: nat, windowMs: nat, times: seq<nat>, bucket: int)
    requires windowMs > 0 && Ordered(times)
    ensures var log := Run(key, limit, windowMs, times).log;
      && Allowed(log, windowMs, bucket) <= limit
      && (Allowed(log, windowMs, bucket - 1) > 0 && Allowed(log, windowMs, bucket) > 0 ==>
          Allowed(log, windowMs, bucket) < limit)
  {
    hide Run, Fits, Allowed;
    RunIsBounded(key, limit, windowMs, times, bucket);
    var log := Run(key, limit, windowMs, times).log;
    var a, b := Allowed(log, windowMs, bucket - 1), Allowed(log, windowMs, bucket);
    if b > 0 {
      var elapsed :| Fits(a, b, limit, windowMs, elapsed);
      FitMeans(a, b, limit, windowMs, elapsed);
    }
  }

  /** Allowed requests at times in [from, to). */
  function AllowedIn(log: seq<Request>, from: int, to: int): nat {
    if log == [] then 0
    else
      var last := log[|log| - 1];
      AllowedIn(log[..|log| - 1], from, to) + if last.allowed && from <= last.now < to then 1 else 0
  }

  lemma TwoBuckets(now: int, from: int, w: nat)
    requires w > 0 && from <= now < from + w
    ensures now / w == from / w || now / w == from / w + 1
  {
    assert from == (from / w) * w + from % w && now == (now / w) * w + now % w;
    Cancel(now / w, from / w + 2, w);
    Cancel(from / w, now / w + 1, w);
  }

  lemma {:induction false} IntervalWithinTwoBuckets(log: seq<Request>, windowMs: nat, from: int)
    requires windowMs > 0
    ensures AllowedIn(log, from, from + windowMs) <=
            Allowed(log, windowMs, from / windowMs) + Allowed(log, windowMs, from / windowMs + 1)
  {
    if log != [] {
      var last := log[|log| - 1];
      IntervalWithinTwoBuckets(log[..|log| - 1], windowMs, from);
      if from <= last.now < from + windowMs { TwoBuckets(last.now, from, windowMs); }
    }
  }

  /** In any interval as long as the window, fewer than twice the limit are allowed. */
  lemma IntervalBound(key: string, limit: nat, windowMs: nat, times: seq<nat>, from: int)
    requires windowMs > 0 && limit >= 1 && Ordered(times)
    ensures AllowedIn(Run(key, limit, windowMs, times).log, from, from + windowMs) < 2 * limit
  {
    hide Run, Allowed, AllowedIn;
    var log := Run(key, limit, windowMs, times).log;
    IntervalWithinTwoBuckets(log, windowMs, from);
    BucketBound(key, limit, windowMs, times, from / windowMs);
    BucketBound(key, limit, windowMs, times, from / windowMs + 1);
  }

  // ---------------------------------------------------------------- the bound is attained

  /** `n` requests at the end of the first window. */
  function Early(n: nat, windowMs: nat): seq<nat>
    requires windowMs > 0
  {
    if n == 0 then [] else Early(n - 1, windowMs) + [windowMs - 1]
  }

  /** And `n` more just before the end of the second. */
  function Late(limit: nat, n: nat, windowMs: nat): seq<nat>
    requires windowMs > 1
  {
    if n == 0 then Early(limit, windowMs) else Late(limit, n - 1, windowMs) + [2 * windowMs - 2]
  }

  lemma {:induction false} EarlyOrdered(n: nat, windowMs: nat)
    requires windowMs > 0
    ensures forall i :: 0 <= i < |Early(n, windowMs)| ==> Early(n, windowMs)[i] == windowMs - 1
  {
    if n > 0 { EarlyOrdered(n - 1, windowMs); }
  }

  lemma {:induction false} LateOrdered(limit: nat, n: nat, windowMs: nat)
    requires windowMs > 1
    ensures Ordered(Late(limit, n, windowMs))
    ensures forall i :: 0 <= i < |Late(limit, n, windowMs)| ==> Late(limit, n, windowMs)[i] <= 2 * windowMs - 2
  {
    if n > 0 { LateOrdered(limit, n - 1, windowMs); } else { EarlyOrdered(limit, windowMs); }
  }

  lemma AllowedInAppend(log: seq<Request>, r: Request, from: int, to: int)
    ensures AllowedIn(log + [r], from, to) ==
            AllowedIn(log, from, to) + if r.allowed && from <= r.now < to then 1 else 0
  {
    assert (log + [r])[..|log|] == log;
  }

  lemma ServeNext(key: string, limit: int, windowMs: nat, times: seq<nat>, now: nat)
    requires windowMs > 0
    ensures Run(key, limit, windowMs, times + [now]) ==
            Serve(Run(key, limit, windowMs, times), key, limit, windowMs, now)
  {
    hide Serve;
    assert (times + [now])[..|times|] == times;
  }

  lemma Multiples(count: nat, limit: nat, w: nat)
    requires count <= limit
    ensures w * count <= limit * w
    ensures count < limit ==> w * count + w <= limit * w
  {
    Distribute(w, count, limit - count);
    Product(w, limit - count);
    if count < limit {
      Distribute(w, limit - count - 1, 1);
      Product(w, limit - count - 1);
    }
  }

  /** The first requests of all meet no previous window. */
  lemma NothingBefore(log: seq<Request>, windowMs: nat, now: nat)
    requires windowMs > 0 && Asked(log, windowMs, now / windowMs - 1) == 0
    ensures Load(log, windowMs, now, 1) == windowMs * (Asked(log, windowMs, now / windowMs) + 1)
  {
    hide Asked;
  }

  lemma Buckets(w: nat)
    requires w > 1
    ensures (w - 1) / w == 0 && (2 * w - 2) / w == 1 && (2 * w - 2) % w == w - 2
  {
    assert 2 * w - 2 == 1 * w + (w - 2);
  }

  lemma {:induction false} EarlyAllowed(key: string, limit: nat, windowMs: nat, n: nat)
    requires windowMs > 1 && n <= limit
    ensures var log := Run(key, limit, windowMs, Early(n, windowMs)).log;
      && Asked(log, windowMs, -1) == 0 && Asked(log, windowMs, 0) == n && Asked(log, windowMs, 1) == 0
      && AllowedIn(log, windowMs - 1, 2 * windowMs - 1) == n
  {
    hide Counted, CountedVerdict, Run, Asked, AllowedIn, Load;
    if n > 0 {
      var times, now := Early(n - 1, windowMs), windowMs - 1;
      EarlyAllowed(key, limit, windowMs, n - 1);
      EarlyOrdered(n - 1, windowMs);
      Buckets(windowMs);
      AllowedIff(key, limit, windowMs, times, now);
      NothingBefore(Run(key, limit, windowMs, times).log, windowMs, now);
      Multiples(n, limit, windowMs);
      LogAfter(key, limit, windowMs, times, now);
    } else {
      NothingYet(key, limit, windowMs);
    }
  }

  lemma NothingYet(key: string, limit: int, windowMs: nat)
    requires windowMs > 0
    ensures var log := Run(key, limit, windowMs, []).log;
      && (forall b :: Asked(log, windowMs, b) == 0) && forall from, to :: AllowedIn(log, from, to) == 0
  {
  }

  /** The counts after one more request. */
  lemma LogAfter(key: string, limit: int, windowMs: nat, times: seq<nat>, now: nat)
    requires windowMs > 1
    ensures var before, after := Run(key, limit, windowMs, times).log, Run(key, limit, windowMs, times + [now]).log;
      var allowed := CountedVerdict(Run(key, limit, windowMs, times).counters, key, limit, windowMs, now).allowed;
      && (forall b :: Asked(after, windowMs, b) == Asked(before, windowMs, b) + if now / windowMs == b then 1 else 0)
      && (forall from, to :: AllowedIn(after, from, to) ==
            AllowedIn(before, from, to) + if allowed && from <= now < to then 1 else 0)
  {
    hide Counted, CountedVerdict, Run, Asked, AllowedIn;
    ServeNext(key, limit, windowMs, times, now);
    var s := Run(key, limit, windowMs, times);
    var r := Serve(s, key, limit, windowMs, now).log[|s.log|];
    forall b
      ensures Asked(s.log + [r], windowMs, b) == Asked(s.log, windowMs, b) + if now / windowMs == b then 1 else 0
    {
      AskedAppend(s.log, r, windowMs, b);
    }
    forall from, to ensures AllowedIn(s.log + [r], from, to) ==
        AllowedIn(s.log, from, to) + if r.allowed && from <= now < to then 1 else 0
    {
      AllowedInAppend(s.log, r, from, to);
    }
  }

  lemma {:induction false} LateAllowed(key: string, limit: nat, windowMs: nat, n: nat)
    requires limit >= 1 && windowMs >= 2 * limit && n < limit
    ensures var log := Run(key, limit, windowMs, Late(limit, n, windowMs)).log;
      && Asked(log, windowMs, 0) == limit && Asked(log, windowMs, 1) == n
      && AllowedIn(log, windowMs - 1, 2 * windowMs - 1) == limit + n
  {
    hide Counted, CountedVerdict, Run, Asked, AllowedIn, Early;
    if n == 0 {
      EarlyAllowed(key, limit, windowMs, limit);
    } else {
      var times, now := Late(limit, n - 1, windowMs), 2 * windowMs - 2;
      LateAllowed(key, limit, windowMs, n - 1);
      LateOrdered(limit, n - 1, windowMs);
      Buckets(windowMs);
      AllowedIff(key, limit, windowMs, times, now);
      Multiples(n, limit, windowMs);
      LogAfter(key, limit, windowMs, times, now);
    }
  }

  /** In a window of at least twice the limit of milliseconds, one less than twice the limit
      can be allowed in an interval of its length: the bound cannot be lowered. */
  lemma IntervalBoundIsTight(key: string, limit: nat, windowMs: nat) returns (times: seq<nat>)
    requires limit >= 1 && windowMs >= 2 * limit
    ensures Ordered(times)
    ensures AllowedIn(Run(key, limit, windowMs, times).log, windowMs - 1, 2 * windowMs - 1) == 2 * limit - 1
  {
    hide Run, AllowedIn, Late;
    times := Late(limit, limit - 1, windowMs);
    LateOrdered(limit, limit - 1, windowMs);
    LateAllowed(key, limit, windowMs, limit - 1);
  }
}

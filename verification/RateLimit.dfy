/** The per-user token bucket and the connection wrapper that spends from it. Clock in seconds. */
module RateLimit {
  import opened ByteSeq
  import opened Streams

  datatype Bucket = Bucket(tokens: real, maxTokens: real, refillRate: real, lastRefill: real)

  // ---- The bucket ----

  /** Tokens earned in `seconds`. */
  function Earn(rate: real, seconds: real): real { seconds * rate }

  function Refilled(b: Bucket, now: real): real
  {
    var t := b.tokens + Earn(b.refillRate, now - b.lastRefill);
    if t > b.maxTokens then b.maxTokens else t
  }

  /** Go's int(x) for a non-negative float: the fraction is dropped. */
  function Whole(x: real): int { x.Floor }

  /** take: refill for the elapsed time, then grant at most n whole tokens. */
  function Take(b: Bucket, n: nat, now: real): (int, Bucket)
  {
    var t := Refilled(b, now);
    var g := if t <= 0.0 then 0 else if n as real > t then Whole(t) else n;
    (g, b.(tokens := t - g as real, lastRefill := now))
  }

  predicate Sound(b: Bucket) { 0.0 <= b.tokens <= b.maxTokens && 0.0 <= b.refillRate }

  /** With `earned` tokens more, of n asked for g are granted: the whole part of what there is, up to max. */
  predicate Grants(b: Bucket, n: nat, now: real, earned: real, g: int, b': Bucket)
  {
    var have := if b.tokens + earned < b.maxTokens then b.tokens + earned else b.maxTokens;
    && g == (if n < have.Floor then n else have.Floor)
    && b' == Bucket(have - g as real, b.maxTokens, b.refillRate, now)
  }

  /** g is n or the whole part of min(max, tokens + rate * elapsed), whichever is less; b' keeps the rest. */
  predicate Exact(b: Bucket, n: nat, now: real, g: int, b': Bucket)
  {
    Grants(b, n, now, b.refillRate * (now - b.lastRefill), g, b')
  }

  lemma TakeGrants(b: Bucket, n: nat, now: real)
    requires Sound(b) && b.lastRefill <= now
    ensures Grants(b, n, now, Earn(b.refillRate, now - b.lastRefill), Take(b, n, now).0, Take(b, n, now).1)
  {
    hide Earn;
    EarnMore(b.refillRate, 0.0, now - b.lastRefill);
  }

  lemma SameGrant(b: Bucket, n: nat, now: real, x: real, y: real, g: int, b': Bucket)
    requires x == y && Grants(b, n, now, x, g, b')
    ensures Grants(b, n, now, y, g, b')
  {
  }

  lemma TakeExact(b: Bucket, n: nat, now: real)
    requires Sound(b) && b.lastRefill <= now
    ensures Exact(b, n, now, Take(b, n, now).0, Take(b, n, now).1)
  {
    hide Earn, Take;
    var dt, r := now - b.lastRefill, Take(b, n, now);
    TakeGrants(b, n, now);
    EarnIs(b.refillRate, dt);
    SameGrant(b, n, now, Earn(b.refillRate, dt), b.refillRate * dt, r.0, r.1);
  }

  /**
    The grant is the least of n and the whole part of min(max, tokens + rate * elapsed), and the rest
    stays in the bucket; so tokens stay in [0, max] and a short grant leaves less than one.
   */
  lemma TakeMeans(b: Bucket, n: nat, now: real)
    requires Sound(b) && b.lastRefill <= now
    ensures var (g, b') := Take(b, n, now);
      var full := b.tokens + b.refillRate * (now - b.lastRefill);
      var have := if full < b.maxTokens then full else b.maxTokens;
      && g == (if n < have.Floor then n else have.Floor)
      && b' == Bucket(have - g as real, b.maxTokens, b.refillRate, now)
    ensures var (g, b') := Take(b, n, now); 0 <= g <= n && Sound(b') && (g < n ==> b'.tokens < 1.0)
  {
    hide Take, Earn;
    TakeExact(b, n, now);
    TakeKeeps(b, n, now);
  }

  /** What the books need of it. */
  lemma TakeKeeps(b: Bucket, n: nat, now: real)
    requires Sound(b) && b.lastRefill <= now
    ensures var (g, b') := Take(b, n, now);
      && 0 <= g <= n && Sound(b') && b' == b.(tokens := b'.tokens, lastRefill := now)
      && b'.tokens + g as real <= b.maxTokens
      && b'.tokens + g as real <= b.tokens + Earn(b.refillRate, now - b.lastRefill)
  {
    hide Earn;
    EarnMore(b.refillRate, 0.0, now - b.lastRefill);
  }

  // ---- Bytes against time ----

  datatype Call = Call(n: nat, at: real)

  ghost predicate Ordered(calls: seq<Call>, from: real)
  {
    && (calls != [] ==> from <= calls[0].at)
    && (forall i, j :: 0 <= i < j < |calls| ==> calls[i].at <= calls[j].at)
  }

  /** The bucket after the calls. */
  function After(b: Bucket, calls: seq<Call>): Bucket
    decreases |calls|
  {
    if calls == [] then b else After(Take(b, calls[0].n, calls[0].at).1, calls[1..])
  }

  /** The bytes they were granted. */
  function Granted(b: Bucket, calls: seq<Call>): int
    decreases |calls|
  {
    if calls == [] then 0
    else Take(b, calls[0].n, calls[0].at).0 + Granted(Take(b, calls[0].n, calls[0].at).1, calls[1..])
  }

  function End(calls: seq<Call>, from: real): real { if calls == [] then from else calls[|calls| - 1].at }

  lemma EarnBoth(rate: real, a: real, b: real, c: real)
    ensures Earn(rate, b - a) + Earn(rate, c - b) == Earn(rate, c - a)
  {
  }

  lemma EarnIs(rate: real, seconds: real)
    ensures Earn(rate, seconds) == rate * seconds
  {
  }

  lemma EarnedBound(x: real, y: real, rate: real, seconds: real)
    requires x <= y + Earn(rate, seconds)
    ensures x <= y + rate * seconds
  {
    EarnIs(rate, seconds);
  }

  lemma EarnMore(rate: real, a: real, b: real)
    requires 0.0 <= rate && a <= b
    ensures Earn(rate, a) <= Earn(rate, b) && Earn(rate, 0.0) == 0.0
  {
  }

  lemma OrderedRest(calls: seq<Call>, from: real)
    requires Ordered(calls, from) && calls != []
    ensures Ordered(calls[1..], calls[0].at) && End(calls[1..], calls[0].at) == End(calls, from)
  {
  }

  lemma {:induction false} Books(b: Bucket, calls: seq<Call>)
    requires Sound(b) && Ordered(calls, b.lastRefill)
    ensures var b' := After(b, calls);
      && Sound(b') && b'.maxTokens == b.maxTokens && b'.refillRate == b.refillRate
      && b'.lastRefill == End(calls, b.lastRefill) && b.lastRefill <= b'.lastRefill
      && 0 <= Granted(b, calls)
      && Granted(b, calls) as real + b'.tokens <= b.tokens + Earn(b.refillRate, b'.lastRefill - b.lastRefill)
    decreases |calls|
  {
    hide Earn, Take, Refilled;
    EarnMore(b.refillRate, 0.0, 0.0);
    if calls != [] {
      var now := calls[0].at;
      var (g, b1) := Take(b, calls[0].n, now);
      TakeKeeps(b, calls[0].n, now);
      OrderedRest(calls, b.lastRefill);
      Books(b1, calls[1..]);
      EarnBoth(b.refillRate, b.lastRefill, now, End(calls, b.lastRefill));
    }
  }

  /** What is granted plus what is left never exceeds what there was plus rate * time. */
  lemma Budget(b: Bucket, calls: seq<Call>)
    requires Sound(b) && Ordered(calls, b.lastRefill)
    ensures var b', end := After(b, calls), End(calls, b.lastRefill);
      && end == (if calls == [] then b.lastRefill else calls[|calls| - 1].at)
      && Sound(b') && b' == Bucket(b'.tokens, b.maxTokens, b.refillRate, end)
      && Granted(b, calls) as real + b'.tokens <= b.tokens + b.refillRate * (end - b.lastRefill)
  {
    hide Earn, Take, Refilled;
    Books(b, calls);
    var b', end := After(b, calls), End(calls, b.lastRefill);
    EarnedBound(Granted(b, calls) as real + b'.tokens, b.tokens, b.refillRate, end - b.lastRefill);
  }

  /** From the first call on, the start is worth at most one full bucket. */
  lemma BurstBound(b: Bucket, calls: seq<Call>)
    requires Sound(b) && Ordered(calls, b.lastRefill) && calls != []
    ensures Granted(b, calls) as real <= b.maxTokens + Earn(b.refillRate, End(calls, 0.0) - calls[0].at)
  {
    hide Earn, Take, Refilled;
    var now := calls[0].at;
    var (g, b1) := Take(b, calls[0].n, now);
    TakeKeeps(b, calls[0].n, now);
    OrderedRest(calls, b.lastRefill);
    Books(b1, calls[1..]);
  }

  lemma NothingGranted(b: Bucket)
    ensures Granted(b, []) == 0
  {
  }

  lemma WindowEarns(b: Bucket, calls: seq<Call>, i: nat, j: nat, from: real, to: real)
    requires Sound(b) && Ordered(calls, b.lastRefill) && i <= j <= |calls| && from <= to
    requires forall k :: i <= k < j ==> from <= calls[k].at <= to
    ensures Granted(After(b, calls[..i]), calls[i..j]) as real <= b.maxTokens + Earn(b.refillRate, to - from)
  {
    hide Earn, After, Granted;
    Books(b, calls[..i]);
    var b1, window := After(b, calls[..i]), calls[i..j];
    EarnMore(b.refillRate, 0.0, to - from);
    if window == [] {
      assert Granted(b1, window) == 0 by { NothingGranted(b1); }
    } else {
      BurstBound(b1, window);
      assert window[0] == calls[i] && window[|window| - 1] == calls[j - 1];
      EarnMore(b.refillRate, End(window, 0.0) - window[0].at, to - from);
    }
  }

  /**
    The rate limit: in any run of calls on a bucket, whatever came before, the calls i..j that fall
    into a window [from, to] are granted at most burst + rate * (to - from) bytes together.
   */
  lemma WindowBound(b: Bucket, calls: seq<Call>, i: nat, j: nat, from: real, to: real)
    requires Sound(b) && Ordered(calls, b.lastRefill) && i <= j <= |calls| && from <= to
    requires forall k :: i <= k < j ==> from <= calls[k].at <= to
    ensures Granted(After(b, calls[..i]), calls[i..j]) as real <= b.maxTokens + b.refillRate * (to - from)
  {
    hide Earn, Take, Refilled, Ordered;
    WindowEarns(b, calls, i, j, from, to);
    EarnedBound(Granted(After(b, calls[..i]), calls[i..j]) as real, b.maxTokens, b.refillRate, to - from);
  }

  // ---- The code ----

  /** A clock that never runs backwards, and runs at least as long as one sleeps. */
  class Clock {
    var now: real

    constructor ()
    {
      now := 0.0;
    }

    method Now() returns (t: real)
      modifies this
      ensures t == now && old(now) <= now
    {
      var passed: real := *;
      if passed > 0.0 {
        now := now + passed;
      }
      t := now;
    }

    method Sleep(d: real)
      modifies this
      ensures old(now) + d <= now
    {
      var late: real := *;
      now := now + d + if late > 0.0 then late else 0.0;
    }
  }

  class Limiter {
    const clock: Clock
    var buckets: map<string, Bucket>
    ghost var granted: int                 // everything Allow ever granted

    constructor (clock: Clock)
      ensures this.clock == clock && buckets == map[] && granted == 0
    {
      this.clock, buckets, granted := clock, map[], 0;
    }

    ghost predicate Valid()
      reads this, clock
    {
      forall u :: u in buckets ==>
        && Sound(buckets[u]) && buckets[u].lastRefill <= clock.now
        && 1.0 <= buckets[u].maxTokens && 1.0 <= buckets[u].refillRate
    }

    method SetLimit(user: string, bytesPerSecond: int, burstSize: int)
      requires Valid()
      modifies this`buckets, clock
      ensures Valid()
      ensures bytesPerSecond <= 0 ==> buckets == old(buckets) - {user}
      ensures bytesPerSecond > 0 ==>
        var burst := (if burstSize <= 0 then bytesPerSecond * 2 else burstSize) as real;
        buckets == old(buckets)[user := Bucket(burst, burst, bytesPerSecond as real, clock.now)]
    {
      if bytesPerSecond <= 0 {
        buckets := buckets - {user};
        return;
      }
      var burst := if burstSize <= 0 then bytesPerSecond * 2 else burstSize;
      var now := clock.Now();
      buckets := buckets[user := Bucket(burst as real, burst as real, bytesPerSecond as real, now)];
    }

    /** Grant up to n bytes; a user without a bucket is not limited. */
    method Allow(user: string, n: nat) returns (allowed: nat)
      requires Valid()
      modifies this, clock
      ensures Valid() && 0 <= allowed <= n && granted == old(granted) + allowed && old(clock.now) <= clock.now
      ensures user !in old(buckets) ==> allowed == n && buckets == old(buckets)
      ensures user in old(buckets) ==>
        && user in buckets && buckets == old(buckets)[user := buckets[user]]
        && Exact(old(buckets)[user], n, clock.now, allowed, buckets[user])
    {
      hide Take, Sound, Exact;
      if user in buckets {
        var now := clock.Now();
        TakeKeeps(buckets[user], n, now);
        TakeExact(buckets[user], n, now);
        var (g, b) := Take(buckets[user], n, now);
        allowed, buckets := g, buckets[user := b];
      } else {
        allowed := n;
      }
      granted := granted + allowed;
    }
  }

  class RateLimitedConn {
    const limiter: Limiter
    const user: string
    const sink: Sink
    const source: Source

    constructor (limiter: Limiter, user: string, sink: Sink, source: Source)
      ensures this.limiter == limiter && this.user == user && this.sink == sink && this.source == source
    {
      this.limiter, this.user, this.sink, this.source := limiter, user, sink, source;
    }

    /** How far the user's bucket is from one whole token, in sleeps' worth. */
    ghost function Short(): real
      reads limiter
    {
      if user in limiter.buckets && limiter.buckets[user].tokens < 1.0
      then (1.0 - limiter.buckets[user].tokens) * 100.0 else 0.0
    }

    /** Send the next `allowed` bytes of p. */
    method Forward(p: Bytes, ghost base: Bytes, n: nat, allowed: nat) returns (sent: nat, ok: bool)
      requires n + allowed <= |p| && sink.Sent() == base + p[..n]
      modifies sink
      ensures sent <= allowed && (ok ==> sent == allowed)
      ensures sink.Sent() == base + p[..n + sent]
    {
      sent, ok := sink.Write(p[n..n + allowed]);
      SliceAppend(p, n, n + allowed, sent);
      Assoc(base, p[..n], p[n..n + allowed][..sent]);
    }

    /**
      Terminates because every empty-handed turn sleeps 10 ms, which earns at least 1/100 token.
      Without error the whole of p went out in order, every byte of it granted first.
     */
    method Write(p: Bytes) returns (n: nat, ok: bool)
      requires limiter.Valid()
      modifies limiter, limiter.clock, sink
      ensures limiter.Valid()
      ensures n <= |p| && sink.Sent() == old(sink.Sent()) + p[..n]
      ensures n <= limiter.granted - old(limiter.granted)
      ensures ok ==> n == |p| == limiter.granted - old(limiter.granted)
    {
      hide Flatten;
      n := 0;
      ghost var rested := false;           // slept since the last, empty-handed Allow
      while n < |p|
        invariant n <= |p| && limiter.Valid()
        invariant sink.Sent() == old(sink.Sent()) + p[..n]
        invariant limiter.granted == old(limiter.granted) + n
        invariant rested && user in limiter.buckets ==> limiter.buckets[user].lastRefill + 0.01 <= limiter.clock.now
        decreases |p| - n, !rested, Short()
      {
        ghost var before := Short();
        label turn:
        var allowed := limiter.Allow(user, |p| - n);
        if allowed == 0 {
          ghost var b := limiter.buckets[user];
          if rested {
            OneSleepEarns(old@turn(limiter.buckets[user]), |p| - n, b.lastRefill, b);
          }
          limiter.clock.Sleep(0.01);
          rested := true;
          continue;
        }
        rested := false;
        var sent, fine := Forward(p, old(sink.Sent()), n, allowed);
        n := n + sent;
        if !fine {
          return n, false;
        }
      }
      assert p[..n] == p;
      return n, true;
    }

    /** Reads at most what was granted, or a single byte when nothing was. */
    method Read(limit: nat) returns (chunk: Bytes, ok: bool)
      requires limiter.Valid()
      modifies limiter, limiter.clock, source
      ensures limiter.Valid()
      ensures |chunk| <= limit && |chunk| <= limiter.granted - old(limiter.granted) + 1
      ensures |chunk| > limiter.granted - old(limiter.granted) ==> limiter.granted == old(limiter.granted)
      ensures old(source.incoming) == chunk + source.incoming
    {
      var allowed := limiter.Allow(user, limit);
      if allowed == 0 {
        limiter.clock.Sleep(0.01);
        allowed := limiter.Allow(user, limit);
        if allowed == 0 {
          allowed := 1;
        }
      }
      var size := if allowed < limit then allowed else limit;
      if size == 0 {
        return [], true;
      }
      chunk, ok := source.Read(size);
    }
  }

  /** 10 ms after an empty-handed take, another empty-handed take has at least 1/100 token more. */
  lemma OneSleepEarns(b: Bucket, n: nat, now: real, b': Bucket)
    requires Sound(b) && 1.0 <= b.maxTokens && 1.0 <= b.refillRate && b.lastRefill + 0.01 <= now
    requires 0 < n && Exact(b, n, now, 0, b')
    ensures b.tokens + 0.01 <= b'.tokens < 1.0
  {
    hide Earn;
    EarnMore(b.refillRate, 0.01, now - b.lastRefill);
    EarnIs(b.refillRate, 0.01);
    EarnIs(b.refillRate, now - b.lastRefill);
    assert b.refillRate * (now - b.lastRefill) >= 0.01;
    assert b'.tokens < 1.0 <= b.maxTokens;
    assert b'.tokens == b.tokens + b.refillRate * (now - b.lastRefill);
  }
}

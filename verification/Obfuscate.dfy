/** The traffic obfuscator: four pacing modes that must not change the byte stream. */
module Obfuscate {
  import opened ByteSeq
  import opened Streams

  datatype Mode = MimicHttps | MimicVideo | RandomBurst | ConstantRate | Other

  /** randomRange: lo when the range is empty, else anything in [lo, hi). */
  method RandomRange(lo: int, hi: int) returns (n: int)
    ensures if lo >= hi then n == lo else lo <= n < hi
  {
    if lo >= hi {
      return lo;
    }
    var k :| 0 <= k < hi - lo;
    n := k + lo;
  }

  // ---- Constant rate: when the loop ends ----

  /** What is left of p after k ticks at the given rate. */
  function LeftAfter(p: Bytes, rate: nat, k: nat): Bytes
  {
    if k == 0 then p
    else
      var left := LeftAfter(p, rate, k - 1);
      left[|UpTo(left, rate / 100)|..]
  }

  predicate AllSent(p: Bytes, rate: nat, k: nat) { LeftAfter(p, rate, k) == [] }

  lemma LeftNext(p: Bytes, rate: nat, k: nat)
    ensures LeftAfter(p, rate, 0) == p
    ensures var left := LeftAfter(p, rate, k);
      LeftAfter(p, rate, k + 1) == left[if rate / 100 < |left| then rate / 100 else |left|..]
  {
  }

  lemma {:induction false} LeftShrinks(p: Bytes, rate: nat, k: nat)
    requires 100 <= rate
    ensures |LeftAfter(p, rate, k)| <= if k < |p| then |p| - k else 0
  {
    if k > 0 {
      LeftShrinks(p, rate, k - 1);
    }
  }

  lemma {:induction false} NothingComesBack(p: Bytes, rate: nat, k: nat, later: nat)
    requires k <= later && LeftAfter(p, rate, k) == []
    ensures LeftAfter(p, rate, later) == []
    decreases later
  {
    if k < later {
      NothingComesBack(p, rate, k, later - 1);
    }
  }

  lemma {:induction false} LeftStays(p: Bytes, rate: nat, k: nat)
    requires 0 < rate < 100
    ensures LeftAfter(p, rate, k) == p
  {
    if k > 0 {
      LeftStays(p, rate, k - 1);
    }
  }

  /** Bytes out after k ticks: k times a hundredth of the rate, or all of them. */
  function OutAfter(size: nat, rate: nat, k: nat): (n: nat)
    ensures n <= size
  {
    if k * (rate / 100) < size then k * (rate / 100) else size
  }

  lemma OutNext(size: nat, rate: nat, k: nat)
    ensures OutAfter(size, rate, 0) == 0
    ensures var n := OutAfter(size, rate, k); OutAfter(size, rate, k + 1) == Least(n + rate / 100, size)
  {
    assert (k + 1) * (rate / 100) == k * (rate / 100) + rate / 100;
  }

  function Least(a: nat, b: nat): nat { if a < b then a else b }

  /** So that is how far the paced loop gets. */
  lemma {:induction false} LeftIs(p: Bytes, rate: nat, k: nat)
    ensures LeftAfter(p, rate, k) == p[OutAfter(|p|, rate, k)..]
  {
    hide LeftAfter, OutAfter;
    if k == 0 {
      LeftNext(p, rate, 0);
      OutNext(|p|, rate, 0);
    } else {
      LeftIs(p, rate, k - 1);
      LeftNext(p, rate, k - 1);
      OutNext(|p|, rate, k - 1);
      DropTwice(p, OutAfter(|p|, rate, k - 1), rate / 100);
    }
  }

  lemma DropTwice(p: Bytes, i: nat, n: nat)
    requires i <= |p|
    ensures p[i..][if n < |p[i..]| then n else |p[i..]|..] == p[Least(i + n, |p|)..]
  {
  }

  /** The paced loop ever finishes exactly when there is nothing to send or a tick carries a byte. */
  lemma PacedLoopEndsIff(p: Bytes, rate: nat)
    requires 0 < rate
    ensures (exists k: nat :: AllSent(p, rate, k)) <==> p == [] || 100 <= rate
  {
    if 100 <= rate {
      LeftShrinks(p, rate, |p|);
      assert AllSent(p, rate, |p|);
    } else {
      assert p == [] ==> AllSent(p, rate, 0);
      forall k: nat ensures AllSent(p, rate, k) <==> p == [] { LeftStays(p, rate, k); }
    }
  }

  // ---- The code ----

  lemma NextPiece(p: Bytes, total: nat, remaining: Bytes, chunk: Bytes, n: nat)
    requires total <= |p| && remaining == p[total..]
    requires n <= |chunk| <= |remaining| && chunk == remaining[..|chunk|]
    ensures total + n <= |p| && p[..total] + chunk[..n] == p[..total + n]
    ensures remaining[|chunk|..] == p[total + |chunk|..]
  {
  }

  lemma SameTail(p: Bytes, i: nat, j: nat)
    requires i <= |p| && j <= |p| && p[i..] == p[j..]
    ensures i == j
  {
    assert |p[i..]| == |p| - i && |p[j..]| == |p| - j;
  }

  class Obfuscator {
    const sink: Sink
    const mode: Mode
    const enabled: bool
    const padding: bool
    const targetRate: int
    var phase: int                         // HTTPS mimicry: 0 request, 1 response, 2 idle
    var phaseBytes: int
    var targetBytes: int
    var segmentSize: int                   // video mimicry
    var segmentsSent: int

    constructor (sink: Sink, mode: Mode, enabled: bool, padding: bool, targetRate: int)
      ensures this.sink == sink && this.mode == mode && this.enabled == enabled
      ensures this.padding == padding && this.targetRate == targetRate
      ensures Valid()
    {
      this.sink, this.mode, this.enabled, this.padding, this.targetRate := sink, mode, enabled, padding, targetRate;
      phase, phaseBytes, targetBytes, segmentSize, segmentsSent := 0, 0, 0, 1, 0;
      new;
      if mode.MimicHttps? {
        targetBytes := RandomRange(200, 800);
      } else if mode.MimicVideo? {
        segmentSize := RandomRange(65536, 262144);
      }
    }

    /** What the loops rely on from one Write to the next: each turn sends at least one byte. */
    ghost predicate Valid()
      reads this
    {
      0 <= phase <= 2 && 0 < segmentSize
    }

    /** Whether a Write of p is through after `ticks` turns of the ticker; only pacing ever waits for it. */
    ghost predicate Through(p: Bytes, ticks: nat)
    {
      enabled && mode.ConstantRate? && 0 < targetRate ==> AllSent(p, targetRate, ticks)
    }

    /**
      Each mode sends p and nothing else; after an error, the reported prefix of it. `ticks` is how
      many turns of the ticker go by at most: without an error the Write is done by then exactly
      when a paced loop would be.
     */
    method Write(p: Bytes, ticks: nat) returns (n: nat, ok: bool, done: bool)
      requires Valid()
      modifies this, sink
      ensures Valid()
      ensures n <= |p| && (ok && done ==> n == |p|)
      ensures sink.Sent() == old(sink.Sent()) + p[..n]
      ensures ok ==> (done <==> Through(p, ticks))
    {
      done := true;
      if !enabled {
        n, ok := sink.Write(p);
        return;
      }
      match mode
      case MimicHttps => n, ok := WriteHttpsMimic(p);
      case MimicVideo => n, ok := WriteVideoMimic(p);
      case RandomBurst => n, ok := WriteRandomBurst(p);
      case ConstantRate => n, ok, done := WriteConstantRate(p, ticks);
      case Other => n, ok := sink.Write(p);
    }

    /** Send a chunk from the front of `remaining`, the unsent part of p; `rest` is what then remains. */
    method SendChunk(p: Bytes, ghost base: Bytes, total: nat, remaining: Bytes, chunk: Bytes)
        returns (n: nat, rest: Bytes, ok: bool)
      requires Progress(p, base, total, remaining) && |chunk| <= |remaining| && chunk == remaining[..|chunk|]
      modifies sink
      ensures n <= |chunk| && total + n <= |p| && sink.Sent() == base + p[..total + n]
      ensures ok ==> n == |chunk| && Progress(p, base, total + n, rest) && rest == remaining[|chunk|..]
      ensures |rest| == |remaining| - |chunk|
    {
      n, ok := sink.Write(chunk);
      rest := remaining[|chunk|..];
      NextPiece(p, total, remaining, chunk, n);
      assert base + p[..total] + chunk[..n] == base + (p[..total] + chunk[..n]);
    }

    /** p[..total] has followed `base` onto the wire and `remaining` is the rest of p. */
    ghost predicate Progress(p: Bytes, base: Bytes, total: nat, remaining: Bytes)
      reads sink
    {
      total <= |p| && remaining == p[total..] && sink.Sent() == base + p[..total]
    }

    method WriteHttpsMimic(p: Bytes) returns (total: nat, ok: bool)
      requires Valid()
      modifies this, sink
      ensures Valid()
      ensures total <= |p| && (ok ==> total == |p|)
      ensures sink.Sent() == old(sink.Sent()) + p[..total]
    {
      total := 0;
      var remaining := p;
      ghost var base := sink.Sent();
      assert base + p[..0] == base;
      while |remaining| > 0
        invariant Valid() && Progress(p, base, total, remaining)
        decreases |remaining|
      {
        var chunkSize := PhaseChunk();
        if chunkSize > |remaining| {
          chunkSize := |remaining|;
        }
        var chunk := remaining[..chunkSize];
        if padding && chunkSize < 1400 {
          chunk := Pad(chunk);
        }
        var n, rest, fine := SendChunk(p, base, total, remaining, chunk[..chunkSize]);
        total := total + n;
        if !fine {
          return total, false;
        }
        remaining := rest;
        phaseBytes := phaseBytes + chunkSize;
        if phaseBytes >= targetBytes {
          NextPhase();
        }
      }
      return total, true;
    }

    /** A chunk size for the current phase; outside the three phases it would be 0. */
    method PhaseChunk() returns (size: nat)
      ensures 0 <= phase <= 2 ==> size > 0
    {
      match phase {
        case 0 => size := RandomRange(100, 1500);
        case 1 => size := RandomRange(1400, 16384);
        case 2 => size := RandomRange(20, 100);
        case _ => size := 0;
      }
    }

    /** Up to 99 random bytes behind the chunk; they are never sent. */
    method Pad(chunk: Bytes) returns (padded: Bytes)
      ensures |chunk| <= |padded| && padded[..|chunk|] == chunk
    {
      var padSize := RandomRange(0, 100);
      padded := chunk;
      var i := 0;
      while i < padSize
        invariant |chunk| <= |padded| && padded[..|chunk|] == chunk
      {
        var b: Byte := *;
        padded := padded + [b];
        i := i + 1;
      }
    }

    method NextPhase()
      requires 0 <= phase <= 2
      modifies this
      ensures phase == (old(phase) + 1) % 3 && phaseBytes == 0
      ensures unchanged(`segmentSize) && unchanged(`segmentsSent)
    {
      phase := (phase + 1) % 3;
      phaseBytes := 0;
      match phase {
        case 0 => targetBytes := RandomRange(200, 800);
        case 1 => targetBytes := RandomRange(5000, 50000);
        case _ => targetBytes := RandomRange(50, 200);
      }
    }

    method WriteVideoMimic(p: Bytes) returns (total: nat, ok: bool)
      requires Valid()
      modifies this, sink
      ensures Valid()
      ensures total <= |p| && (ok ==> total == |p|)
      ensures sink.Sent() == old(sink.Sent()) + p[..total]
    {
      total := 0;
      var remaining := p;
      ghost var base := sink.Sent();
      assert base + p[..0] == base;
      while |remaining| > 0
        invariant Valid() && Progress(p, base, total, remaining)
        decreases |remaining|
      {
        var chunkSize := segmentSize;
        if chunkSize > |remaining| {
          chunkSize := |remaining|;
        }
        var n, rest, fine := SendChunk(p, base, total, remaining, remaining[..chunkSize]);
        total := total + n;
        if !fine {
          return total, false;
        }
        remaining := rest;
        segmentsSent := segmentsSent + 1;
        segmentSize := RandomRange(65536, 262144);
      }
      return total, true;
    }

    method WriteRandomBurst(p: Bytes) returns (total: nat, ok: bool)
      modifies sink
      ensures total <= |p| && (ok ==> total == |p|)
      ensures sink.Sent() == old(sink.Sent()) + p[..total]
    {
      total := 0;
      var remaining := p;
      ghost var base := sink.Sent();
      assert base + p[..0] == base;
      while |remaining| > 0
        invariant Progress(p, base, total, remaining)
        decreases |remaining|
      {
        var burstSize := RandomRange(512, 8192);
        if burstSize > |remaining| {
          burstSize := |remaining|;
        }
        var n, rest, fine := SendChunk(p, base, total, remaining, remaining[..burstSize]);
        total := total + n;
        if !fine {
          return total, false;
        }
        remaining := rest;
      }
      return total, true;
    }

    /** The paced loop for as many ticks as go by; what is left then is what the rate leaves. */
    method WriteConstantRate(p: Bytes, ticks: nat) returns (total: nat, ok: bool, done: bool)
      modifies sink
      ensures total <= |p| && (ok && done ==> total == |p|)
      ensures sink.Sent() == old(sink.Sent()) + p[..total]
      ensures ok && targetRate <= 0 ==> done
      ensures ok && 0 < targetRate ==> p[total..] == LeftAfter(p, targetRate, ticks)
      ensures ok && 0 < targetRate ==>
        total == if ticks * (targetRate / 100) < |p| then ticks * (targetRate / 100) else |p|
      ensures ok && 0 < targetRate ==> (done <==> AllSent(p, targetRate, ticks))
    {
      hide LeftAfter;
      if targetRate <= 0 {
        total, ok := sink.Write(p);
        return total, ok, true;
      }
      total := 0;
      var remaining := p;
      ghost var base := sink.Sent();
      assert base + p[..0] == base;
      var bytesPerTick := targetRate / 100;
      var elapsed := 0;
      LeftNext(p, targetRate, 0);
      while |remaining| > 0 && elapsed < ticks
        invariant Progress(p, base, total, remaining)
        invariant elapsed <= ticks && remaining == LeftAfter(p, targetRate, elapsed)
        decreases ticks - elapsed
      {
        LeftNext(p, targetRate, elapsed);
        var chunkSize := bytesPerTick;
        if chunkSize > |remaining| {
          chunkSize := |remaining|;
        }
        var n, rest, fine := SendChunk(p, base, total, remaining, remaining[..chunkSize]);
        total := total + n;
        if !fine {
          return total, false, false;
        }
        remaining := rest;
        elapsed := elapsed + 1;
      }
      if remaining == [] {
        NothingComesBack(p, targetRate, elapsed, ticks);
      }
      LeftIs(p, targetRate, ticks);
      SameTail(p, total, OutAfter(|p|, targetRate, ticks));
      return total, true, remaining == [];
    }
  }

  /** Any run of error-free writes that get through, in any mode, is transparent. */
  method SendAll(o: Obfuscator, inputs: seq<Bytes>, ticks: nat) returns (ok: bool, done: bool)
    requires o.Valid()
    modifies o, o.sink
    ensures o.Valid()
    ensures ok && done ==> o.sink.Sent() == old(o.sink.Sent()) + Flatten(inputs)
    ensures ok ==> (done <==> forall i :: 0 <= i < |inputs| ==> o.Through(inputs[i], ticks))
  {
    hide AllSent;
    for i := 0 to |inputs|
      invariant o.Valid() && o.sink.Sent() == old(o.sink.Sent()) + Flatten(inputs[..i])
      invariant forall k :: 0 <= k < i ==> o.Through(inputs[k], ticks)
    {
      assert inputs[..i + 1] == inputs[..i] + [inputs[i]];
      FlattenSnoc(inputs[..i], inputs[i]);
      var n, fine, through := o.Write(inputs[i], ticks);
      if !fine || !through {
        return fine, false;
      }
      Whole(inputs[i]);
      Assoc(old(o.sink.Sent()), Flatten(inputs[..i]), inputs[i]);
    }
    assert inputs[..|inputs|] == inputs;
    return true, true;
  }
}

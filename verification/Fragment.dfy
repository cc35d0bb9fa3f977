/** The fragmenter: the first TLS handshake write leaves in several segments, unchanged as a stream. */
module Fragment {
  import opened ByteSeq
  import opened Streams

  /** The segments a sink received since it held `before`. */
  ghost function Since(before: seq<Bytes>, now: seq<Bytes>): seq<Bytes>
    requires |before| <= |now|
  {
    now[|before|..]
  }

  /** Every fragment but the last has a size the configuration allows; the last is no larger. */
  ghost predicate SizedBy(pieces: seq<Bytes>, min: nat, max: nat)
  {
    && (forall i :: 0 <= i < |pieces| - 1 ==> min <= |pieces[i]| <= max)
    && (pieces != [] ==> |pieces[|pieces| - 1]| <= max)
  }

  class Fragmenter {
    const enabled: bool
    const minSize: nat
    const maxSize: nat

    /** NewFragmenter refuses any other range. */
    constructor (enabled: bool, minSize: nat, maxSize: nat)
      requires enabled ==> 1 <= minSize <= maxSize
      ensures this.enabled == enabled && this.minSize == minSize && this.maxSize == maxSize
      ensures Valid()
    {
      this.enabled, this.minSize, this.maxSize := enabled, minSize, maxSize;
    }

    predicate Valid() { enabled ==> 1 <= minSize <= maxSize }

    /** ok is false when the random source fails. */
    method RandomSize() returns (size: nat, ok: bool)
      requires Valid() && enabled
      ensures minSize <= size <= maxSize
    {
      if maxSize == minSize {
        return minSize, true;
      }
      ok := *;
      if !ok {
        return minSize, false;
      }
      var rangeSize := maxSize - minSize + 1;
      var n :| 0 <= n < rangeSize;
      size := minSize + n;
    }

    /** Strictly inside any message of two bytes or more. */
    method RandomSplitPoint(dataLen: nat) returns (split: nat)
      ensures 2 <= dataLen ==> 0 < split < dataLen
      ensures 10 <= dataLen ==> split <= dataLen / 2
      ensures split <= dataLen
    {
      var minSplit, maxSplit := 5, 100;
      if maxSplit > dataLen / 2 {
        maxSplit := dataLen / 2;
      }
      if minSplit >= maxSplit {
        minSplit := 1;
        maxSplit := dataLen / 2;
      }
      var rangeSize := maxSplit - minSplit;
      if rangeSize <= 0 {
        return dataLen / 2;
      }
      var fine: bool := *;
      if !fine {
        return dataLen / 2;
      }
      var n :| 0 <= n < rangeSize;
      split := minSplit + n;
    }

    /** The data in random-sized pieces; an error leaves a prefix of it on the wire. */
    method FragmentedWrite(sink: Sink, data: Bytes) returns (ok: bool)
      requires Valid()
      modifies sink
      ensures old(sink.segments) <= sink.segments
      ensures ok ==> sink.Sent() == old(sink.Sent()) + data
      ensures !ok ==> exists n: nat :: n <= |data| && sink.Sent() == old(sink.Sent()) + data[..n]
      ensures ok && enabled && |data| > minSize ==>
        SizedBy(Since(old(sink.segments), sink.segments), minSize, maxSize)
      ensures ok && (!enabled || |data| <= minSize) ==> sink.segments == old(sink.segments) + [data]
      ensures ok && data != [] ==> |old(sink.segments)| < |sink.segments|
    {
      if !enabled || |data| <= minSize {
        var n, fine := sink.Write(data);
        assert data[..|data|] == data;
        return fine;
      }
      ghost var before := sink.segments;
      var offset := 0;
      while offset < |data|
        invariant offset <= |data| && before <= sink.segments
        invariant offset > 0 ==> |before| < |sink.segments|
        invariant sink.Sent() == old(sink.Sent()) + data[..offset]
        invariant offset < |data| ==>
          forall i :: |before| <= i < |sink.segments| ==> minSize <= |sink.segments[i]| <= maxSize
        invariant SizedBy(Since(before, sink.segments), minSize, maxSize)
      {
        var fragSize, fine := RandomSize();
        if !fine {
          return false;
        }
        var end := offset + fragSize;
        if end > |data| {
          end := |data|;
        }
        var n, sent := sink.Write(data[offset..end]);
        SliceAppend(data, offset, end, n);
        Assoc(old(sink.Sent()), data[..offset], data[offset..end][..n]);
        if !sent {
          return false;
        }
        offset := end;
      }
      assert data[..offset] == data;
      return true;
    }

    /** Split once near the front, then fragment the rest. */
    method FragmentTlsClientHello(sink: Sink, hello: Bytes) returns (ok: bool)
      requires Valid()
      modifies sink
      ensures old(sink.segments) <= sink.segments
      ensures ok ==> sink.Sent() == old(sink.Sent()) + hello
      ensures !ok ==> exists n: nat :: n <= |hello| && sink.Sent() == old(sink.Sent()) + hello[..n]
      ensures ok && enabled && 10 <= |hello| ==> SplitInside(Since(old(sink.segments), sink.segments), hello)
      ensures ok && (!enabled || |hello| < 10) ==> sink.segments == old(sink.segments) + [hello]
    {
      if !enabled || |hello| < 10 {
        var n, fine := sink.Write(hello);
        assert hello[..|hello|] == hello;
        return fine;
      }
      ghost var before := sink.segments;
      var split := RandomSplitPoint(|hello|);
      var n, sent := sink.Write(hello[..split]);
      assert hello[..split][..n] == hello[..n];
      if !sent {
        return false;
      }
      ghost var first := sink.segments;
      ok := FragmentedWrite(sink, hello[split..]);
      assert hello == hello[..split] + hello[split..];
      if !ok {
        ghost var m: nat :|
          m <= |hello[split..]| && sink.Sent() == old(sink.Sent()) + hello[..split] + hello[split..][..m];
        assert hello[..split] + hello[split..][..m] == hello[..split + m];
        return;
      }
      ghost var pieces := Since(before, sink.segments);
      assert pieces[0] == first[|before|] == hello[..split];
      assert pieces[1..] == Since(first, sink.segments);
    }

    /** The first segment is a proper, nonempty part; the later ones are sized as configured. */
    ghost predicate SplitInside(pieces: seq<Bytes>, hello: Bytes)
    {
      && |pieces| >= 2 && 0 < |pieces[0]| < |hello| && pieces[0] <= hello
      && (|hello| - |pieces[0]| > minSize ==> SizedBy(pieces[1..], minSize, maxSize))
      && (|hello| - |pieces[0]| <= minSize ==> |pieces| == 2)
    }
  }

  /** FragmentedConn: only the first write, and only a TLS handshake, is fragmented. */
  class FragmentedConn {
    const sink: Sink
    const fragmenter: Fragmenter
    var didFirst: bool

    constructor (sink: Sink, fragmenter: Fragmenter)
      ensures this.sink == sink && this.fragmenter == fragmenter && !didFirst
    {
      this.sink, this.fragmenter, didFirst := sink, fragmenter, false;
    }

    method Write(p: Bytes) returns (n: nat, ok: bool)
      requires fragmenter.Valid()
      modifies this, sink
      ensures ok ==> n == |p| && sink.Sent() == old(sink.Sent()) + p
      ensures !ok ==> exists k: nat :: k <= |p| && sink.Sent() == old(sink.Sent()) + p[..k]
      ensures didFirst == (old(didFirst) || fragmenter.enabled)
      ensures ok && (old(didFirst) || !fragmenter.enabled || |p| < 10 || p[0] != 0x16) ==>
        sink.segments == old(sink.segments) + [p]
    {
      if !didFirst && fragmenter.enabled {
        didFirst := true;
        if |p| > 5 && p[0] == 0x16 {
          ok := fragmenter.FragmentTlsClientHello(sink, p);
          n := if ok then |p| else 0;
          return;
        }
      }
      n, ok := sink.Write(p);
      assert p[..|p|] == p;
    }
  }

  /** Any run of error-free writes through a FragmentedConn is transparent. */
  method SendAll(conn: FragmentedConn, inputs: seq<Bytes>) returns (ok: bool)
    requires conn.fragmenter.Valid()
    modifies conn, conn.sink
    ensures ok ==> conn.sink.Sent() == old(conn.sink.Sent()) + Flatten(inputs)
  {
    for i := 0 to |inputs|
      invariant conn.sink.Sent() == old(conn.sink.Sent()) + Flatten(inputs[..i])
    {
      assert inputs[..i + 1] == inputs[..i] + [inputs[i]];
      FlattenSnoc(inputs[..i], inputs[i]);
      var _, fine := conn.Write(inputs[i]);
      if !fine {
        return false;
      }
    }
    assert inputs[..|inputs|] == inputs;
    return true;
  }
}

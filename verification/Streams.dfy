/** The two ends of a connection, as far as the codecs see them. */
module Streams {
  import opened ByteSeq

  /**
    The receiving end. `incoming` is everything the peer will ever deliver; a connection that
    breaks early is one whose `incoming` is shorter. Each Read hands over some nonempty part.
   */
  class Source {
    var incoming: Bytes

    constructor (incoming: Bytes)
      ensures this.incoming == incoming
    {
      this.incoming := incoming;
    }

    /** io.Reader.Read with a buffer of `limit` bytes; fails only when nothing is left. */
    method Read(limit: nat) returns (chunk: Bytes, ok: bool)
      requires 0 < limit
      modifies this
      ensures ok <==> old(incoming) != []
      ensures ok ==> 0 < |chunk| <= limit
      ensures !ok ==> chunk == []
      ensures old(incoming) == chunk + incoming
    {
      if incoming == [] {
        return [], false;
      }
      var n :| 0 < n <= limit && n <= |incoming|;
      chunk, ok := incoming[..n], true;
      incoming := incoming[n..];
    }
  }

  /** The sending end: every Write becomes one segment on the wire. */
  class Sink {
    var segments: seq<Bytes>

    constructor ()
      ensures segments == []
    {
      segments := [];
    }

    ghost function Sent(): Bytes
      reads this
    {
      Flatten(segments)
    }

    /** io.Writer.Write: everything is sent, or an error stops it after the first `n` bytes. */
    method Write(p: Bytes) returns (n: nat, ok: bool)
      modifies this
      ensures n <= |p| && (ok ==> n == |p|)
      ensures segments == old(segments) + [p[..n]]
      ensures Sent() == old(Sent()) + p[..n]
    {
      ok := *;
      if ok {
        n := |p|;
      } else {
        n :| n <= |p|;
      }
      FlattenSnoc(segments, p[..n]);
      segments := segments + [p[..n]];
    }
  }

  /** Some front part of the frame followed `before` onto the wire. */
  ghost predicate PartOf(frame: Bytes, before: Bytes, after: Bytes)
  {
    exists n: nat :: n <= |frame| && after == before + frame[..n]
  }

  /** Fill a buffer of `n` bytes from however many partial reads it takes. */
  method ReadFull(source: Source, n: nat) returns (buf: Bytes, ok: bool)
    modifies source
    ensures ok <==> n <= |old(source.incoming)|
    ensures ok ==> |buf| == n
    ensures old(source.incoming) == buf + source.incoming
    ensures !ok ==> source.incoming == []
  {
    buf := [];
    while |buf| < n
      invariant |buf| <= n
      invariant old(source.incoming) == buf + source.incoming
      decreases n - |buf|
    {
      var chunk, more := source.Read(n - |buf|);
      buf := buf + chunk;
      if !more {
        return buf, false;
      }
    }
    return buf, true;
  }
}

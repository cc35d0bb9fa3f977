/** FakeTCP: messages over a byte stream, each behind a two-byte length. */
module FakeTcp {
  import opened ByteSeq
  import opened Streams
  import opened Vectors

  const MAX_MESSAGE := 65535

  /** The wire form of a list of messages. */
  function Frames(ms: seq<Bytes>): Bytes
  {
    if ms == [] then [] else Put16(ms[0], Frames(ms[1..]))
  }

  lemma {:induction false} FramesSnoc(ms: seq<Bytes>, m: Bytes)
    ensures Frames(ms + [m]) == Frames(ms) + Put16(m, [])
  {
    hide Put16;
    if ms == [] {
      assert ms + [m] == [m];
      assert Frames([m]) == Put16(m, []);
    } else {
      FramesSnoc(ms[1..], m);
      assert (ms + [m])[1..] == ms[1..] + [m];
      Put16Longer(ms[0], Frames(ms[1..]), Put16(m, []));
    }
  }

  predicate Sendable(ms: seq<Bytes>) { forall i :: 0 <= i < |ms| ==> |ms[i]| <= MAX_MESSAGE }

  // ---- What Read does, message by message ----

  /** The unread part of the current message, and the messages not yet begun. */
  datatype Inbox = Inbox(current: Bytes, rest: seq<Bytes>)

  /** All bytes still to be delivered. */
  function Pending(b: Inbox): Bytes { b.current + Flatten(b.rest) }

  /** A Read with room for n bytes; there must be something to read. */
  function ReadStep(b: Inbox, n: nat): (Bytes, Inbox)
    requires b.current != [] || b.rest != []
  {
    if b.current != [] then (UpTo(b.current, n), b.(current := b.current[|UpTo(b.current, n)|..]))
    else
      var m := b.rest[0];
      (UpTo(m, n), Inbox(m[|UpTo(m, n)|..], b.rest[1..]))
  }

  lemma StepBuffered(b: Inbox, n: nat)
    requires b.current != []
    ensures ReadStep(b, n) == (UpTo(b.current, n), Inbox(b.current[|UpTo(b.current, n)|..], b.rest))
  {
  }

  lemma StepFrame(b: Inbox, n: nat)
    requires b.current == [] && b.rest != []
    ensures ReadStep(b, n) == (UpTo(b.rest[0], n), Inbox(b.rest[0][|UpTo(b.rest[0], n)|..], b.rest[1..]))
  {
  }

  function Drained(b: Inbox): bool { b.current == [] && b.rest == [] }

  /** The results of Reads with the given buffer sizes, until nothing is left. */
  function Reads(b: Inbox, sizes: seq<nat>): seq<Bytes>
    decreases |sizes|
  {
    if sizes == [] || Drained(b) then []
    else [ReadStep(b, sizes[0]).0] + Reads(ReadStep(b, sizes[0]).1, sizes[1..])
  }

  function AfterReads(b: Inbox, sizes: seq<nat>): Inbox
    decreases |sizes|
  {
    if sizes == [] || Drained(b) then b else AfterReads(ReadStep(b, sizes[0]).1, sizes[1..])
  }

  /** A Read takes its bytes off the front of what is pending. */
  lemma StepTakesFront(b: Inbox, n: nat)
    requires !Drained(b)
    ensures var (out, b') := ReadStep(b, n);
      var m := if b.current != [] then b.current else b.rest[0];
      Pending(b) == out + Pending(b') && |out| == if n < |m| then n else |m|
  {
    if b.current == [] {
      var m := b.rest[0];
      assert m == UpTo(m, n) + m[|UpTo(m, n)|..];
    } else {
      assert b.current == UpTo(b.current, n) + b.current[|UpTo(b.current, n)|..];
    }
  }

  /** Whatever the buffer sizes, the Reads so far and the rest make up exactly what was sent. */
  lemma {:induction false} ReadsPreserveStream(b: Inbox, sizes: seq<nat>)
    ensures Flatten(Reads(b, sizes)) + Pending(AfterReads(b, sizes)) == Pending(b)
    decreases |sizes|
  {
    if sizes != [] && !Drained(b) {
      hide ReadStep;
      var (out, b') := ReadStep(b, sizes[0]);
      StepTakesFront(b, sizes[0]);
      ReadsPreserveStream(b', sizes[1..]);
      var more := Reads(b', sizes[1..]);
      assert ([out] + more)[1..] == more;
    }
  }

  /** What is left to do: one turn per message begun, one per byte. */
  function Work(b: Inbox): nat { |b.current| + |Flatten(b.rest)| + |b.rest| }

  lemma StepWorks(b: Inbox, n: nat)
    requires !Drained(b) && 0 < n
    ensures Work(ReadStep(b, n).1) < Work(b)
  {
  }

  /** Nonempty buffers, one for every turn of work. */
  predicate Enough(b: Inbox, sizes: seq<nat>)
  {
    Work(b) <= |sizes| && forall i :: 0 <= i < |sizes| ==> 0 < sizes[i]
  }

  /** Enough Reads with nonempty buffers deliver everything. */
  lemma {:induction false} ReadsComplete(b: Inbox, sizes: seq<nat>)
    requires Enough(b, sizes)
    ensures Drained(AfterReads(b, sizes)) && Flatten(Reads(b, sizes)) == Pending(b)
    decreases |sizes|
  {
    ReadsPreserveStream(b, sizes);
    if sizes != [] && !Drained(b) {
      StepWorks(b, sizes[0]);
      ReadsComplete(ReadStep(b, sizes[0]).1, sizes[1..]);
    }
  }

  /** No Read crosses a message boundary: its result is a piece of a single message. */
  ghost predicate PieceOf(out: Bytes, m: Bytes)
  {
    exists i: nat, j: nat :: i <= j <= |m| && out == m[i..j]
  }

  ghost predicate WithinOne(out: Bytes, ms: seq<Bytes>) { exists k :: 0 <= k < |ms| && PieceOf(out, ms[k]) }

  /** The current part is a tail of message k, the rest are the messages after it. */
  ghost predicate Follows(b: Inbox, ms: seq<Bytes>)
  {
    && |b.rest| <= |ms| && b.rest == ms[|ms| - |b.rest|..]
    && (b.current != [] ==>
          |b.rest| < |ms| && |b.current| <= |ms[|ms| - |b.rest| - 1]|
          && b.current == ms[|ms| - |b.rest| - 1][|ms[|ms| - |b.rest| - 1]| - |b.current|..])
  }

  lemma StepWithinOne(b: Inbox, n: nat, ms: seq<Bytes>)
    requires !Drained(b) && Follows(b, ms)
    ensures var (out, b') := ReadStep(b, n); WithinOne(out, ms) && Follows(b', ms)
  {
    var (out, b') := ReadStep(b, n);
    if b.current != [] {
      var k := |ms| - |b.rest| - 1;
      var i := |ms[k]| - |b.current|;
      assert out == ms[k][i..i + |out|];
      assert PieceOf(out, ms[k]);
    } else {
      var k := |ms| - |b.rest|;
      assert out == ms[k][0..|out|];
      assert PieceOf(out, ms[k]);
    }
  }

  lemma {:induction false} ReadsWithinOne(b: Inbox, sizes: seq<nat>, ms: seq<Bytes>)
    requires Follows(b, ms)
    ensures forall i :: 0 <= i < |Reads(b, sizes)| ==> WithinOne(Reads(b, sizes)[i], ms)
    decreases |sizes|
  {
    if sizes != [] && !Drained(b) {
      StepWithinOne(b, sizes[0], ms);
      ReadsWithinOne(ReadStep(b, sizes[0]).1, sizes[1..], ms);
    }
  }

  /** End to end: the Reads are a prefix of the Writes, cut only inside or between messages. */
  lemma DeliveredIsPrefix(ms: seq<Bytes>, sizes: seq<nat>)
    ensures Flatten(Reads(Inbox([], ms), sizes)) <= Flatten(ms)
    ensures forall i :: 0 <= i < |Reads(Inbox([], ms), sizes)| ==> WithinOne(Reads(Inbox([], ms), sizes)[i], ms)
  {
    ReadsPreserveStream(Inbox([], ms), sizes);
    assert Pending(Inbox([], ms)) == Flatten(ms);
    ReadsWithinOne(Inbox([], ms), sizes, ms);
  }

  // ---- The code ----

  /** The first frame of a stream is complete. */
  predicate FrameReady(s: Bytes) { 2 <= |s| && 2 + U16At(s, 0) <= |s| }

  lemma HeaderOf(s: Bytes, ms: seq<Bytes>)
    requires s <= Frames(ms) && Sendable(ms) && 2 <= |s|
    ensures ms != [] && U16At(s, 0) == |ms[0]|
    ensures 2 + |ms[0]| <= |s| ==> s[2..2 + |ms[0]|] == ms[0] && s[2 + |ms[0]|..] <= Frames(ms[1..])
    ensures 2 + |ms[0]| <= |s| ==> s == Put16(ms[0], s[2 + |ms[0]|..])
  {
    hide U16;
    var m, rest := ms[0], Frames(ms[1..]);
    Be16Value(|m|);
    FrontOf(Be16(|m|), m, rest, s);
  }

  lemma FrontOf(len: Bytes, m: Bytes, rest: Bytes, s: Bytes)
    requires |len| == 2 && s <= len + m + rest && 2 <= |s|
    ensures s[0] == len[0] && s[1] == len[1]
    ensures 2 + |m| <= |s| ==> s[2..2 + |m|] == m && s[2 + |m|..] <= rest && s == len + m + s[2 + |m|..]
  {
    var f := len + m + rest;
    assert s == f[..|s|];
    if 2 + |m| <= |s| {
      assert s[2..2 + |m|] == f[2..2 + |m|] == m;
      assert s[2 + |m|..] == f[2 + |m|..][..|s| - 2 - |m|] && f[2 + |m|..] == rest;
    }
  }

  /** What a header read off the stream says. */
  lemma Announced(s: Bytes, header: Bytes, body: Bytes, ms: seq<Bytes>)
    requires s == header + body && |header| == 2 && s <= Frames(ms) && Sendable(ms)
    ensures ms != [] && U16At(header, 0) == |ms[0]|
    ensures FrameReady(s) <==> |ms[0]| <= |body|
  {
    hide U16, Frames;
    HeaderOf(s, ms);
  }

  /** Header and payload read off the stream are its first frame. */
  lemma TakenOff(s: Bytes, header: Bytes, payload: Bytes, rest: Bytes, ms: seq<Bytes>)
    requires s == header + (payload + rest) && |header| == 2 && s <= Frames(ms) && Sendable(ms)
    requires ms != [] && |payload| == |ms[0]|
    ensures payload == ms[0] && rest <= Frames(ms[1..]) && s == Put16(ms[0], rest)
  {
    hide U16, Frames, Put16;
    HeaderOf(s, ms);
    assert payload == s[2..2 + |payload|] && rest == s[2 + |payload|..];
  }

  lemma Be16Is(n: nat)
    requires n < 65536
    ensures Be16(n) == [n / 256, n % 256]
  {
  }

  class Conn {
    const source: Source
    const sink: Sink
    var readBuf: Bytes
    var readPos: nat
    var readLen: nat
    ghost var unread: seq<Bytes>           // what the peer wrote and no Read has begun

    constructor (source: Source, sink: Sink, ghost sent: seq<Bytes>)
      requires Sendable(sent) && source.incoming <= Frames(sent)
      ensures this.source == source && this.sink == sink
      ensures Valid() && Contents() == Inbox([], sent)
    {
      this.source, this.sink := source, sink;
      readBuf, readPos, readLen, unread := [], 0, 0, sent;
    }

    /** The stream may still be missing the end of what the peer wrote. */
    ghost predicate Valid()
      reads this, source
    {
      && Sendable(unread) && source.incoming <= Frames(unread)
      && (readPos < readLen ==> readLen <= |readBuf|)
    }

    ghost function Contents(): Inbox
      requires Valid()
      reads this, source
    {
      Inbox(if readPos < readLen then readBuf[readPos..readLen] else [], unread)
    }

    /** Header and payload go out in one write; an oversized message sends nothing. */
    method Write(p: Bytes) returns (n: nat, ok: bool)
      modifies sink
      ensures ok ==> n == |p| <= 65535 && sink.Sent() == old(sink.Sent()) + Put16(p, [])
      ensures ok ==> sink.Sent() == old(sink.Sent()) + ([|p| / 256, |p| % 256] + p)
      ensures !ok ==> n == 0
      ensures |p| > MAX_MESSAGE ==> !ok && sink.segments == old(sink.segments)
      ensures !ok && |p| <= MAX_MESSAGE ==> PartOf(Put16(p, []), old(sink.Sent()), sink.Sent())
    {
      hide Be16;
      if |p| > 65535 {
        return 0, false;
      }
      var buf := Be16(|p|) + p;
      assert buf == Put16(p, []);
      assert Be16(|p|) == [|p| / 256, |p| % 256] by { Be16Is(|p|); }
      var sent, fine := sink.Write(buf);
      if !fine || sent < |buf| {
        return 0, false;
      }
      assert buf[..sent] == buf;
      return |p|, true;
    }

    /**
      With data buffered or a whole frame available, one step of the message-by-message reader;
      otherwise an error that delivers nothing.
     */
    method Read(n: nat) returns (out: Bytes, ok: bool)
      requires Valid()
      modifies this, source
      ensures Valid()
      ensures ok <==> old(Contents()).current != [] || FrameReady(old(source.incoming))
      ensures ok ==> !Drained(old(Contents())) && (out, Contents()) == ReadStep(old(Contents()), n)
      ensures ok && old(Contents()).current != [] ==> source.incoming == old(source.incoming)
      ensures ok && old(Contents()).current == [] ==>
        old(source.incoming) == Put16(old(unread)[0], source.incoming)
      ensures !ok ==> out == [] && source.incoming == [] && Contents() == old(Contents())
    {
      hide Frames, U16, Put16, ReadStep;
      ghost var before := Contents();
      if readPos < readLen {
        ghost var current := readBuf[readPos..readLen];
        StepBuffered(before, n);
        out := UpTo(readBuf[readPos..readLen], n);
        readPos := readPos + |out|;
        assert readBuf[readPos..readLen] == current[|out|..];
        assert Contents() == Inbox(current[|out|..], unread);
        return out, true;
      }
      ghost var s := source.incoming;
      var header, full := ReadFull(source, 2);
      if !full {
        return [], false;
      }
      ghost var body := source.incoming;
      Announced(s, header, body, unread);
      StepFrame(before, n);
      var payloadLen := U16At(header, 0);
      if payloadLen == 0 {
        TakenOff(s, header, [], body, unread);
        unread := unread[1..];
        return [], true;
      }
      var payload, complete := ReadFull(source, payloadLen);
      readBuf := payload;
      if !complete {
        return [], false;
      }
      TakenOff(s, header, payload, source.incoming, unread);
      unread := unread[1..];
      readLen := payloadLen;
      out := UpTo(readBuf, n);
      readPos := |out|;
      assert readBuf[readPos..readLen] == readBuf[|out|..];
      assert Contents() == Inbox(readBuf[|out|..], unread);
      return out, true;
    }
  }

  /** Error-free writes put exactly the frames of the messages on the wire. */
  method SendAll(conn: Conn, ms: seq<Bytes>) returns (ok: bool)
    modifies conn.sink
    ensures ok ==> Sendable(ms) && conn.sink.Sent() == old(conn.sink.Sent()) + Frames(ms)
  {
    hide Put16, Flatten;
    for i := 0 to |ms|
      invariant Sendable(ms[..i]) && conn.sink.Sent() == old(conn.sink.Sent()) + Frames(ms[..i])
    {
      assert ms[..i + 1] == ms[..i] + [ms[i]];
      FramesSnoc(ms[..i], ms[i]);
      var _, fine := conn.Write(ms[i]);
      if !fine {
        return false;
      }
      Assoc(old(conn.sink.Sent()), Frames(ms[..i]), Put16(ms[i], []));
    }
    assert ms[..|ms|] == ms;
    return true;
  }

  /** With the whole stream there, a frame is ready exactly when a message is still unread. */
  lemma ReadyIff(ms: seq<Bytes>)
    requires Sendable(ms)
    ensures FrameReady(Frames(ms)) <==> ms != []
  {
    hide U16, Put16;
    if ms != [] {
      FrameLength(ms[0], Frames(ms[1..]));
      HeaderOf(Frames(ms), ms);
    }
  }

  lemma FrameLength(m: Bytes, rest: Bytes)
    ensures |Put16(m, rest)| == 2 + |m| + |rest|
  {
    hide Be16;
  }

  lemma Put16Cancels(m: Bytes, a: Bytes, b: Bytes)
    requires Put16(m, a) == Put16(m, b)
    ensures a == b
  {
    hide Be16;
    DropPrefix(Be16(|m|) + m, a);
    DropPrefix(Be16(|m|) + m, b);
  }

  /**
    The receiving end: Reads with any buffer sizes until one fails. What they return is the start of
    the message-by-message reading, and so of the bytes sent; with the whole stream there it is all
    of that reading, and with enough nonempty buffers it is everything sent.
   */
  method ReceiveAll(conn: Conn, sizes: seq<nat>) returns (outs: seq<Bytes>)
    requires conn.Valid()
    modifies conn, conn.source
    ensures conn.Valid()
    ensures outs <= Reads(old(conn.Contents()), sizes)
    ensures Flatten(outs) <= Pending(old(conn.Contents()))
    ensures old(conn.source.incoming == Frames(conn.unread)) ==> outs == Reads(old(conn.Contents()), sizes)
    ensures old(conn.source.incoming == Frames(conn.unread)) && Enough(old(conn.Contents()), sizes) ==>
      Flatten(outs) == Pending(old(conn.Contents()))
  {
    hide Frames, ReadStep, Pending, Flatten, Put16, Drained;
    ghost var start, whole := conn.Contents(), conn.source.incoming == Frames(conn.unread);
    outs := [];
    var i := 0;
    while i < |sizes|
      invariant i <= |sizes| && conn.Valid()
      invariant Reads(start, sizes) == outs + Reads(conn.Contents(), sizes[i..])
      invariant whole ==> conn.source.incoming == Frames(conn.unread)
    {
      ghost var before, stream := conn.Contents(), conn.source.incoming;
      if whole { ReadyIff(before.rest); }
      var out, ok := conn.Read(sizes[i]);
      if !ok {
        DrainedIs(before);
        break;
      }
      ReadsMore(before, sizes[i..], out, conn.Contents());
      if whole && before.current == [] {
        FramesOf(before.rest);
        Put16Cancels(before.rest[0], conn.source.incoming, Frames(before.rest[1..]));
      }
      StepRest(before, sizes[i]);
      ghost var rest := Reads(conn.Contents(), sizes[i + 1..]);
      assert outs + ([out] + rest) == outs + [out] + rest;
      outs := outs + [out];
      i := i + 1;
    }
    ReadsEnd(conn.Contents(), sizes[i..]);
    ReadsSplit(start, sizes, outs, Reads(conn.Contents(), sizes[i..]));
    if Enough(start, sizes) {
      ReadsComplete(start, sizes);
    }
  }

  lemma DrainedIs(b: Inbox)
    ensures Drained(b) <==> b.current == [] && b.rest == []
  {
  }

  lemma FramesOf(ms: seq<Bytes>)
    requires ms != []
    ensures Frames(ms) == Put16(ms[0], Frames(ms[1..]))
  {
  }

  lemma StepRest(b: Inbox, n: nat)
    requires !Drained(b)
    ensures ReadStep(b, n).1.rest == if b.current != [] then b.rest else b.rest[1..]
  {
  }

  lemma ReadsMore(b: Inbox, sizes: seq<nat>, out: Bytes, next: Inbox)
    requires sizes != [] && !Drained(b) && (out, next) == ReadStep(b, sizes[0])
    ensures Reads(b, sizes) == [out] + Reads(next, sizes[1..])
  {
  }

  lemma ReadsEnd(b: Inbox, sizes: seq<nat>)
    ensures sizes == [] || Drained(b) ==> Reads(b, sizes) == []
  {
  }

  lemma ReadsSplit(b: Inbox, sizes: seq<nat>, outs: seq<Bytes>, rest: seq<Bytes>)
    requires Reads(b, sizes) == outs + rest
    ensures Flatten(outs) <= Pending(b)
  {
    FlattenConcat(outs, rest);
    ReadsPreserveStream(b, sizes);
    Assoc(Flatten(outs), Flatten(rest), Pending(AfterReads(b, sizes)));
  }
}

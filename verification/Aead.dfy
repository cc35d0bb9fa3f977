/** Encrypted frames: XChaCha20-Poly1305 as an abstract cipher, and the framing around it. */
module Aead {
  import opened ByteSeq
  import opened Streams

  const MAX_PAYLOAD := 65535
  const NONCE_SIZE := 24
  const TAG_SIZE := 16
  const LENGTH_SIZE := 2
  const HEADER_SIZE := NONCE_SIZE + LENGTH_SIZE + TAG_SIZE
  const MAX_FRAME := MAX_PAYLOAD + HEADER_SIZE + 100

  /** The cipher under one key: seal(nonce, plaintext), open(nonce, ciphertext). */
  datatype Cipher = Cipher(seal: (Bytes, Bytes) -> Bytes, open: (Bytes, Bytes) -> Option<Bytes>)

  /** The functional laws of an AEAD with a 16-byte tag. */
  ghost predicate Lawful(k: Cipher)
  {
    && (forall n, m :: |k.seal(n, m)| == |m| + TAG_SIZE)
    && (forall n, m :: k.open(n, k.seal(n, m)) == Some(m))
    && (forall n, c :: |c| < TAG_SIZE ==> k.open(n, c) == None)
    && (forall n, c :: k.open(n, c).Some? ==> |k.open(n, c).value| + TAG_SIZE == |c|)
  }

  // ---- Encrypt and Decrypt ----

  function Encrypt(k: Cipher, nonce: Bytes, plaintext: Bytes): Option<Bytes>
  {
    if |plaintext| > MAX_PAYLOAD then None
    else Some(nonce + k.seal(nonce, Be16(|plaintext|)) + k.seal(nonce, plaintext))
  }

  /**
    The bound payloadLen+TagSize of the slice is computed in uint16. (The opened length field is
    always two bytes for a lawful cipher.)
   */
  function Decrypt(k: Cipher, c: Bytes): Option<Bytes>
  {
    if |c| < HEADER_SIZE then None
    else
      var nonce, sealedLen, sealed := c[..NONCE_SIZE], c[NONCE_SIZE..HEADER_SIZE], c[HEADER_SIZE..];
      match k.open(nonce, sealedLen)
      case None => None
      case Some(len) =>
        if |len| < 2 then None
        else
          var payloadLen := U16At(len, 0);
          if |sealed| < payloadLen + TAG_SIZE then None
          else k.open(nonce, sealed[..(payloadLen + TAG_SIZE) % 65536])
  }

  /** Decrypting what Encrypt made, whatever bytes trail it. */
  lemma DecryptEncrypt(k: Cipher, nonce: Bytes, p: Bytes, trailing: Bytes)
    requires Lawful(k) && |nonce| == NONCE_SIZE && |p| <= MAX_PAYLOAD
    ensures Decrypt(k, Encrypt(k, nonce, p).value + trailing) == if |p| <= 65519 then Some(p) else None
  {
    hide U16;
    var len, body := k.seal(nonce, Be16(|p|)), k.seal(nonce, p);
    Be16Value(|p|);
    var c := Encrypt(k, nonce, p).value + trailing;
    assert c[..NONCE_SIZE] == nonce;
    assert c[NONCE_SIZE..HEADER_SIZE] == len;
    var sealed := c[HEADER_SIZE..];
    assert sealed == body + trailing;
    if |p| <= 65519 {
      assert sealed[..|p| + TAG_SIZE] == body;
    }
  }

  /** So the round trip holds exactly up to 65519 bytes, though Encrypt accepts up to 65535. */
  lemma RoundTripIff(k: Cipher, nonce: Bytes, p: Bytes)
    requires Lawful(k) && |nonce| == NONCE_SIZE
    ensures Encrypt(k, nonce, p).Some? <==> |p| <= MAX_PAYLOAD
    ensures Encrypt(k, nonce, p).Some? ==>
      (Decrypt(k, Encrypt(k, nonce, p).value) == Some(p) <==> |p| <= 65519)
  {
    if |p| <= MAX_PAYLOAD {
      DecryptEncrypt(k, nonce, p, []);
      assert Encrypt(k, nonce, p).value + [] == Encrypt(k, nonce, p).value;
    }
  }

  // ---- Frames on a stream ----

  function Frame(k: Cipher, nonce: Bytes, p: Bytes): Bytes
    requires |p| <= MAX_PAYLOAD
  {
    var e := Encrypt(k, nonce, p).value;
    Be32(|e|) + e
  }

  /**
    The wire form: four bytes that spell the length of what follows, the nonce, the sealed two-byte
    length of the plaintext, and the sealed plaintext.
   */
  lemma FrameLayout(k: Cipher, nonce: Bytes, p: Bytes)
    requires Lawful(k) && |nonce| == 24 && |p| <= 65535
    ensures exists size: Bytes, len: Bytes ::
      && |size| == 4 && |len| == 2
      && (size[0] as int) * 0x100_0000 + (size[1] as int) * 0x1_0000 + (size[2] as int) * 0x100 + size[3] as int
           == 24 + 18 + |p| + 16
      && (len[0] as int) * 0x100 + len[1] as int == |p|
      && Frame(k, nonce, p) == size + (nonce + k.seal(nonce, len) + k.seal(nonce, p))
  {
    hide Be16, Be32;
    FrameSize(k, nonce, p);
    var size, len := Be32(|Encrypt(k, nonce, p).value|), Be16(|p|);
    Be32Value(|Encrypt(k, nonce, p).value|);
    Be16Value(|p|);
    assert Frame(k, nonce, p) == size + (nonce + k.seal(nonce, len) + k.seal(nonce, p));
  }

  /**
    What Decrypt accepts: a nonce, 18 bytes that open to a length of at most 65519, and behind them
    that many bytes and a tag, which open to the plaintext; anything may trail.
   */
  lemma DecryptIff(k: Cipher, c: Bytes, p: Bytes)
    requires Lawful(k)
    ensures Decrypt(k, c) == Some(p) <==>
      && |c| >= 42
      && exists len: Bytes ::
           && |len| == 2 && k.open(c[..24], c[24..42]) == Some(len)
           && var n := (len[0] as int) * 0x100 + len[1] as int;
           && n <= 65519 && 42 + n + 16 <= |c|
           && k.open(c[..24], c[42..42 + n + 16]) == Some(p)
  {
    hide U16;
    if |c| >= 42 {
      var nonce, sealed := c[..24], c[42..];
      if k.open(nonce, c[24..42]).Some? {
        var len := k.open(nonce, c[24..42]).value;
        LengthBytes(len);
        var n := U16At(len, 0);
        if n + 16 <= |sealed| {
          assert n <= 65519 ==> sealed[..n + 16] == c[42..42 + n + 16];
          assert n > 65519 ==> |sealed[..(n + 16) % 65536]| < 16;
        }
      }
    }
  }

  lemma LengthBytes(len: Bytes)
    requires |len| == 2
    ensures U16At(len, 0) == (len[0] as int) * 0x100 + len[1] as int
  {
  }

  datatype Message = Message(nonce: Bytes, plaintext: Bytes)

  predicate Sendable(ms: seq<Message>)
  {
    forall i :: 0 <= i < |ms| ==> |ms[i].nonce| == NONCE_SIZE && |ms[i].plaintext| <= MAX_PAYLOAD
  }

  function Frames(k: Cipher, ms: seq<Message>): Bytes
    requires Sendable(ms)
  {
    if ms == [] then [] else Frame(k, ms[0].nonce, ms[0].plaintext) + Frames(k, ms[1..])
  }

  datatype FrameResult = Read(plaintext: Bytes, rest: Bytes) | Failed

  /** ReadEncryptedFrame on the bytes of a stream. */
  function ReadFrame(k: Cipher, s: Bytes): FrameResult
  {
    if |s| < 4 || U32At(s, 0) > MAX_FRAME || 4 + U32At(s, 0) > |s| then Failed
    else match Decrypt(k, s[4..4 + U32At(s, 0)])
      case None => Failed
      case Some(p) => Read(p, s[4 + U32At(s, 0)..])
  }

  lemma FrameSize(k: Cipher, nonce: Bytes, p: Bytes)
    requires Lawful(k) && |nonce| == NONCE_SIZE && |p| <= MAX_PAYLOAD
    ensures |Encrypt(k, nonce, p).value| == HEADER_SIZE + |p| + TAG_SIZE <= MAX_FRAME
  {
  }

  /** A length prefix above 65677, or one with too few bytes behind it, is refused. */
  lemma FrameRefused(k: Cipher, s: Bytes)
    requires |s| >= 4
    ensures var n := (s[0] as int) * 0x100_0000 + (s[1] as int) * 0x1_0000 + (s[2] as int) * 0x100 + s[3] as int;
      && (n > 65677 || |s| < 4 + n ==> ReadFrame(k, s) == Failed)
      && (n <= 65677 && 4 + n <= |s| ==>
            ReadFrame(k, s) == match Decrypt(k, s[4..4 + n]) case None => Failed case Some(p) => Read(p, s[4 + n..]))
  {
    hide Decrypt, U16;
    Be32Back(s, 0);
  }

  lemma LengthInFront(len: Bytes, e: Bytes, rest: Bytes)
    requires |len| == 4 && U32At(len, 0) == |e|
    ensures var s := len + e + rest;
      U32At(s, 0) == |e| && s[4..4 + |e|] == e && s[4 + |e|..] == rest
  {
    hide U16;
    var s := len + e + rest;
    assert s[0] == len[0] && s[1] == len[1] && s[2] == len[2] && s[3] == len[3];
  }

  /** A written frame never trips the size cap, and reads back iff its plaintext is at most 65519 bytes. */
  lemma FrameReadsBack(k: Cipher, nonce: Bytes, p: Bytes, rest: Bytes)
    requires Lawful(k) && |nonce| == NONCE_SIZE && |p| <= MAX_PAYLOAD
    ensures ReadFrame(k, Frame(k, nonce, p) + rest) == if |p| <= 65519 then Read(p, rest) else Failed
  {
    hide Decrypt, U16, Be32;
    var e := Encrypt(k, nonce, p).value;
    FrameSize(k, nonce, p);
    Be32Value(|e|);
    LengthInFront(Be32(|e|), e, rest);
    DecryptEncrypt(k, nonce, p, []);
    assert e + [] == e;
  }

  function Plaintexts(ms: seq<Message>): seq<Bytes>
  {
    seq(|ms|, i requires 0 <= i < |ms| => ms[i].plaintext)
  }

  /** n frames off the front of a stream, or None if one fails. */
  function ReadFrames(k: Cipher, s: Bytes, n: nat): Option<seq<Bytes>>
  {
    if n == 0 then Some([])
    else match ReadFrame(k, s)
      case Failed => None
      case Read(p, rest) =>
        match ReadFrames(k, rest, n - 1)
        case None => None
        case Some(ps) => Some([p] + ps)
  }

  /** Any sequence of frames reads back as the same plaintexts, iff none is longer than 65519 bytes. */
  lemma {:induction false} FramesReadBack(k: Cipher, ms: seq<Message>)
    requires Lawful(k) && Sendable(ms)
    ensures ReadFrames(k, Frames(k, ms), |ms|) ==
      if forall i :: 0 <= i < |ms| ==> |ms[i].plaintext| <= 65519 then Some(Plaintexts(ms)) else None
  {
    hide Frame, ReadFrame, Lawful;
    if ms != [] {
      var tail := ms[1..];
      FrameReadsBack(k, ms[0].nonce, ms[0].plaintext, Frames(k, tail));
      FramesReadBack(k, tail);
      assert Plaintexts(ms) == [ms[0].plaintext] + Plaintexts(tail);
      assert (forall i :: 0 <= i < |ms| ==> |ms[i].plaintext| <= 65519) <==>
        |ms[0].plaintext| <= 65519 && forall i :: 0 <= i < |tail| ==> |tail[i].plaintext| <= 65519 by {
        assert forall i :: 0 <= i < |tail| ==> tail[i] == ms[i + 1];
        assert forall i :: 0 < i < |ms| ==> ms[i] == tail[i - 1];
      }
    }
  }

  // ---- The code ----

  /** Length prefix and ciphertext in two writes; after an error a part of the frame may be out. */
  method WriteEncryptedFrame(sink: Sink, k: Cipher, nonce: Bytes, data: Bytes) returns (ok: bool)
    requires Lawful(k) && |nonce| == NONCE_SIZE
    modifies sink
    ensures |data| > MAX_PAYLOAD ==> !ok && sink.segments == old(sink.segments)
    ensures ok ==> |data| <= MAX_PAYLOAD && sink.Sent() == old(sink.Sent()) + Frame(k, nonce, data)
    ensures !ok && |data| <= MAX_PAYLOAD ==> PartOf(Frame(k, nonce, data), old(sink.Sent()), sink.Sent())
  {
    hide Be32;
    var encrypted := Encrypt(k, nonce, data);
    if encrypted.None? {
      return false;
    }
    var lenBuf := Be32(|encrypted.value|);
    ghost var frame := Frame(k, nonce, data);
    var n, fine := sink.Write(lenBuf);
    assert lenBuf[..n] == frame[..n];
    if !fine {
      return false;
    }
    n, ok := sink.Write(encrypted.value);
    assert frame[..4 + n] == lenBuf + encrypted.value[..n];
    assert frame[..|frame|] == frame;
  }

  /** EncryptedWriter.Write: the same frame, reported as len(p) bytes written. */
  method EncryptedWrite(sink: Sink, k: Cipher, nonce: Bytes, p: Bytes) returns (n: nat, ok: bool)
    requires Lawful(k) && |nonce| == NONCE_SIZE
    modifies sink
    ensures ok ==> n == |p| <= MAX_PAYLOAD && sink.Sent() == old(sink.Sent()) + Frame(k, nonce, p)
    ensures !ok ==> n == 0
    ensures |p| > MAX_PAYLOAD ==> !ok && sink.segments == old(sink.segments)
    ensures !ok && |p| <= MAX_PAYLOAD ==> PartOf(Frame(k, nonce, p), old(sink.Sent()), sink.Sent())
  {
    ok := WriteEncryptedFrame(sink, k, nonce, p);
    n := if ok then |p| else 0;
  }

  method ReadEncryptedFrame(source: Source, k: Cipher) returns (plaintext: Option<Bytes>)
    modifies source
    ensures match ReadFrame(k, old(source.incoming))
      case Failed => plaintext == None
      case Read(p, rest) => plaintext == Some(p) && source.incoming == rest
  {
    hide Decrypt, U16;
    ghost var s := source.incoming;
    var lenBuf, full := ReadFull(source, 4);
    if !full {
      return None;
    }
    assert lenBuf == s[..4];
    var frameLen := U32At(lenBuf, 0);
    assert frameLen == U32At(s, 0);
    if frameLen > MAX_PAYLOAD + HEADER_SIZE + 100 {
      return None;
    }
    assert source.incoming == s[4..];
    var frame, complete := ReadFull(source, frameLen);
    if !complete {
      return None;
    }
    assert frame == s[4..4 + frameLen] && source.incoming == s[4 + frameLen..];
    return Decrypt(k, frame);
  }
}
